/** The open-addressing table: filling it by probing, and looking keys up in it. */
module KeyTable {
  import opened Wrappers
  import opened Bytes
  import opened KeyIndex

  /** The contents of the four parallel arrays: key lengths as 8-bit numbers, packed keys, keys, field numbers. */
  datatype View = View(lens: seq<nat>, packs: seq<nat>, strs: seq<bytes>, vals: seq<nat>)

  predicate Shaped(v: View, size: nat) {
    |v.lens| == size && |v.packs| == size && |v.strs| == size && |v.vals| == size
  }

  /** A key's length as the table stores it. */
  function StoredLength(k: bytes): nat {
    |k| % 256
  }

  /** Keys that leave a trace in the table: the stored length is not the mark of an empty slot. */
  predicate Storable(k: bytes) {
    StoredLength(k) != 0
  }

  /** A long key that the table cannot tell from a short one, whose bytes are all zero: their stored lengths and their
      packed numbers are the same. No key of up to 255 bytes is taken for another one. */
  predicate PassesFor(f: bytes, key: bytes) {
    |f| > 8 && 1 <= |key| <= 8 && StoredLength(f) == |key| && Pack(key) == 0
  }

  predicate Confused(fields: seq<bytes>, key: bytes) {
    exists i :: 0 <= i < |fields| && PassesFor(fields[i], key)
  }

  /** An occupied slot describes one of the first `n` fields. */
  predicate SlotOk(v: View, fields: seq<bytes>, n: nat, s: nat)
    requires s < |v.lens| && Shaped(v, |v.lens|)
  {
    v.lens[s] != 0 ==>
      && v.vals[s] < n <= |fields|
      && v.lens[s] == StoredLength(fields[v.vals[s]]) && v.packs[s] == Packed(fields[v.vals[s]]) &&
        v.strs[s] == fields[v.vals[s]]
  }

  /** The first `d` slots from `home` on are occupied. */
  predicate Path(lens: seq<nat>, home: nat, d: nat) {
    home < |lens| && d <= |lens| && forall e | 0 <= e < d :: lens[Slot(home, e, |lens|)] != 0
  }

  /** Field `i` stands `dist` steps behind its home, with no gap before it. */
  predicate Placed(v: View, home: nat, dist: nat, i: nat)
    requires Shaped(v, |v.lens|)
  {
    && home < |v.lens| && dist < |v.lens| && Path(v.lens, home, dist)
    && v.lens[Slot(home, dist, |v.lens|)] != 0 && v.vals[Slot(home, dist, |v.lens|)] == i
  }

  /** An occupied slot is the one where its field was placed. */
  predicate AtPlace(v: View, fields: seq<bytes>, home: bytes -> nat, dist: seq<nat>, s: nat)
    requires s < |v.lens| && Shaped(v, |v.lens|)
  {
    v.lens[s] != 0 && v.vals[s] < |dist| <= |fields| ==>
      var i := v.vals[s];
      home(fields[i]) < |v.lens| && dist[i] < |v.lens| && Slot(home(fields[i]), dist[i], |v.lens|) == s
  }

  /** The table holds the storable ones among the first `n` fields; `dist` says how far each stands from its home, and
      of two equal keys the earlier one stands nearer. */
  ghost predicate Holds(v: View, fields: seq<bytes>, n: nat, home: bytes -> nat, dist: seq<nat>) {
    && Shaped(v, |v.lens|) && |dist| == n <= |fields|
    && (forall s | 0 <= s < |v.lens| :: SlotOk(v, fields, n, s) && AtPlace(v, fields, home, dist, s))
    && (forall i | 0 <= i < n :: Storable(fields[i]) ==> Placed(v, home(fields[i]), dist[i], i))
    && (forall i, j | 0 <= i < j < n :: fields[i] == fields[j] && Storable(fields[i]) ==> dist[i] < dist[j])
  }

  /** Whether the entry in a slot is taken for the key. */
  predicate Matches(v: View, s: nat, key: bytes)
    requires s < |v.lens| && Shaped(v, |v.lens|)
  {
    if |key| <= 8 then v.lens[s] == |key| && v.packs[s] == Packed(key) else v.strs[s] == key
  }

  /** An entry is taken for the key exactly when it is the key's, or passes for it. */
  lemma {:induction false} MatchesIffKey(v: View, fields: seq<bytes>, n: nat, s: nat, key: bytes)
    requires s < |v.lens| && Shaped(v, |v.lens|) && SlotOk(v, fields, n, s) && v.lens[s] != 0
    ensures Storable(fields[v.vals[s]])
    ensures Matches(v, s, key) <==> fields[v.vals[s]] == key || PassesFor(fields[v.vals[s]], key)
  {
    var f := fields[v.vals[s]];
    if |key| <= 8 && |f| <= 8 && Matches(v, s, key) {
      PackInjective(f, key);
    }
  }

  /** Inserting at the first empty slot keeps the table in order. */
  lemma {:induction false} InsertKeeps(v: View, fields: seq<bytes>, n: nat, home: bytes -> nat, dist: seq<nat>, d: nat,
                                       w: View)
    requires Holds(v, fields, n, home, dist) && n < |fields|
    requires home(fields[n]) < |v.lens| && d < |v.lens| && Path(v.lens, home(fields[n]), d)
    requires var p, f := Slot(home(fields[n]), d, |v.lens|), fields[n];
      && v.lens[p] == 0
      && w == View(v.lens[p := StoredLength(f)], v.packs[p := Packed(f)], v.strs[p := f], v.vals[p := n])
    ensures Holds(w, fields, n + 1, home, dist + [d])
  {
    var p, all, more := Slot(home(fields[n]), d, |v.lens|), dist + [d], n + 1;
    forall s | 0 <= s < |w.lens| ensures SlotOk(w, fields, more, s) && AtPlace(w, fields, home, all, s) {
      assert SlotOk(v, fields, n, s) && AtPlace(v, fields, home, dist, s);
    }
    forall i | 0 <= i < more && Storable(fields[i]) ensures Placed(w, home(fields[i]), all[i], i) {
      if i < n {
        assert Placed(v, home(fields[i]), dist[i], i);
      }
    }
    forall i, j | 0 <= i < j < more && fields[i] == fields[j] && Storable(fields[i]) ensures all[i] < all[j] {
      if j == n {
        assert Placed(v, home(fields[i]), dist[i], i);
        if d <= dist[i] {
          PlacedOccupied(v, home(fields[i]), dist[i], i, d);
        }
      }
    }
  }

  /** All slots up to a field's place are occupied. */
  lemma {:induction false} PlacedOccupied(v: View, home: nat, dist: nat, i: nat, d: nat)
    requires Shaped(v, |v.lens|) && Placed(v, home, dist, i) && d <= dist
    ensures v.lens[Slot(home, d, |v.lens|)] != 0
  {
  }

  /** A probe from the key's home has passed `d` occupied slots, none of which is taken for the key. */
  ghost predicate Probed(v: View, fields: seq<bytes>, home: bytes -> nat, dist: seq<nat>, key: bytes, d: nat) {
    && Holds(v, fields, |fields|, home, dist) && home(key) < |v.lens| && d < |v.lens| && Path(v.lens, home(key), d)
    && forall e | 0 <= e < d :: !Matches(v, Slot(home(key), e, |v.lens|), key)
  }

  /** If it now stands at the key's own entry, that is the first field with the key. */
  lemma {:induction false} FirstFound(v: View, fields: seq<bytes>, home: bytes -> nat, dist: seq<nat>, key: bytes,
                                      d: nat)
    requires Probed(v, fields, home, dist, key, d)
    requires var p := Slot(home(key), d, |v.lens|); v.lens[p] != 0 && v.vals[p] < |fields| && fields[v.vals[p]] == key
    ensures Storable(key) && FirstMatch(fields, key) == Some(v.vals[Slot(home(key), d, |v.lens|)])
  {
    var h, p := home(key), Slot(home(key), d, |v.lens|);
    assert SlotOk(v, fields, |fields|, p);
    var i := v.vals[p];
    assert AtPlace(v, fields, home, dist, p);
    SamePlace(h, d, dist[i], |v.lens|);
    forall j | 0 <= j < i ensures fields[j] != key {
      if fields[j] == key {
        TakenIsNotNearer(v, fields, home, dist, key, d, j);
      }
    }
    FirstMatchIs(fields, key, i);
  }

  lemma {:induction false} SamePlace(home: nat, d: nat, e: nat, size: nat)
    requires home < size && d < size && e < size && Slot(home, d, size) == Slot(home, e, size)
    ensures d == e
  {
  }

  /** A field that is taken for the key and has its home stands no nearer than where the probe stands. */
  lemma {:induction false} TakenIsNotNearer(v: View, fields: seq<bytes>, home: bytes -> nat, dist: seq<nat>, key: bytes,
                                            d: nat, j: nat)
    requires Probed(v, fields, home, dist, key, d)
    requires j < |fields| && Storable(fields[j]) && home(fields[j]) == home(key)
    requires fields[j] == key || PassesFor(fields[j], key)
    ensures d <= dist[j] && v.lens[Slot(home(key), d, |v.lens|)] != 0
  {
    assert Placed(v, home(fields[j]), dist[j], j);
    var s := Slot(home(key), dist[j], |v.lens|);
    assert SlotOk(v, fields, |fields|, s);
    MatchesIffKey(v, fields, |fields|, s, key);
    PlacedOccupied(v, home(key), dist[j], j, d);
  }

  /** A probe that reaches an empty slot has shown that no storable field has the key, and that none that passes for it
      has its home. */
  lemma {:induction false} NoneFound(v: View, fields: seq<bytes>, home: bytes -> nat, dist: seq<nat>, key: bytes,
                                     d: nat)
    requires Probed(v, fields, home, dist, key, d) && v.lens[Slot(home(key), d, |v.lens|)] == 0
    ensures Storable(key) ==> FirstMatch(fields, key) == None
    ensures !HasTwin(fields, home, key)
  {
    forall j | 0 <= j < |fields| ensures !(fields[j] == key && Storable(key)) {
      if fields[j] == key && Storable(key) {
        TakenIsNotNearer(v, fields, home, dist, key, d, j);
      }
    }
    forall j | 0 <= j < |fields| ensures !(PassesFor(fields[j], key) && home(fields[j]) == home(key)) {
      if PassesFor(fields[j], key) && home(fields[j]) == home(key) {
        TakenIsNotNearer(v, fields, home, dist, key, d, j);
      }
    }
  }

  /** A field that passes for the key and has its home. */
  predicate HasTwin(fields: seq<bytes>, home: bytes -> nat, key: bytes) {
    exists i :: 0 <= i < |fields| && PassesFor(fields[i], key) && home(fields[i]) == home(key)
  }

  /** The entry `d` steps from the key's home passes for the key, and a probe gets there: all slots on the way are
      occupied, and none of them holds the key. */
  predicate Intrudes(v: View, fields: seq<bytes>, home: nat, key: bytes, d: nat) {
    && Shaped(v, |v.lens|) && home < |v.lens| && d < |v.lens| && Path(v.lens, home, d + 1)
    && Entry(v, fields, home, d).Some? && PassesFor(Entry(v, fields, home, d).value, key)
    && forall e | 0 <= e < d :: Entry(v, fields, home, e) != Some(key)
  }

  /** The key that the slot `d` steps from `home` describes. */
  function Entry(v: View, fields: seq<bytes>, home: nat, d: nat): Option<bytes>
    requires Shaped(v, |v.lens|) && home < |v.lens| && d < |v.lens|
  {
    var p := Slot(home, d, |v.lens|);
    if v.lens[p] != 0 && v.vals[p] < |fields| then Some(fields[v.vals[p]]) else None
  }

  ghost predicate Intruded(v: View, fields: seq<bytes>, home: nat, key: bytes) {
    exists d: nat :: Intrudes(v, fields, home, key, d)
  }

  /** Without a confusion nothing intrudes. */
  lemma {:induction false} NothingIntrudes(v: View, fields: seq<bytes>, home: nat, key: bytes)
    requires !Confused(fields, key)
    ensures !Intruded(v, fields, home, key)
  {
  }

  /** Keys of at most 255 bytes confuse no lookup, and only the empty one among them is lost. */
  lemma {:induction false} ShortKeysStorable(fields: seq<bytes>, key: bytes)
    requires forall i | 0 <= i < |fields| :: |fields[i]| <= 255
    ensures !Confused(fields, key) && (key in fields && key != [] ==> Storable(key))
  {
  }

  // ----- the table in memory -----

  /** How many slots are occupied. */
  function Occupied(lens: seq<nat>): nat {
    if |lens| == 0 then 0 else Occupied(lens[..|lens| - 1]) + if lens[|lens| - 1] != 0 then 1 else 0
  }

  lemma {:induction false} OccupiedUpdate(lens: seq<nat>, p: nat, x: nat)
    requires p < |lens|
    ensures Occupied(lens[p := x]) <= Occupied(lens) + 1
    decreases |lens|
  {
    var n := |lens| - 1;
    var after := lens[p := x];
    if p == n {
      assert after[..n] == lens[..n];
    } else {
      assert after[..n] == lens[..n][p := x];
      OccupiedUpdate(lens[..n], p, x);
    }
  }

  /** A table that is not full has an empty slot. */
  lemma {:induction false} EmptySlot(lens: seq<nat>) returns (s: nat)
    requires Occupied(lens) < |lens|
    ensures s < |lens| && lens[s] == 0
    decreases |lens|
  {
    var n := |lens| - 1;
    if lens[n] == 0 {
      s := n;
    } else {
      s := EmptySlot(lens[..n]);
    }
  }

  lemma {:induction false} NoneOccupied(lens: seq<nat>)
    requires forall s | 0 <= s < |lens| :: lens[s] == 0
    ensures Occupied(lens) == 0
    decreases |lens|
  {
    if |lens| > 0 {
      NoneOccupied(lens[..|lens| - 1]);
    }
  }

  /** A probe that has passed only occupied slots has not come round to the empty one. */
  lemma {:induction false} ProbeStops(lens: seq<nat>, home: nat, d: nat, empty: nat)
    requires Path(lens, home, d) && empty < |lens| && lens[empty] == 0
    ensures d < |lens|
  {
    var e := StepsTo(home, empty, |lens|);
    assert lens[Slot(home, e, |lens|)] == 0;
  }

  class Table {
    const fields: seq<bytes>
    const hash64: nat -> nat
    const hashBytes: bytes -> nat
    const size: nat
    const lens: array<nat>
    const packs: array<nat>
    const strs: array<bytes>
    const vals: array<nat>

    predicate Valid()
      reads this
    {
      && IsPowerOfTwo(size) && size > 2 * |fields|
      && lens.Length == size && packs.Length == size && strs.Length == size && vals.Length == size && lens != packs &&
      lens != vals && packs != vals
    }

    function Contents(): View
      reads this, lens, packs, strs, vals
    {
      View(lens[..], packs[..], strs[..], vals[..])
    }

    /** The slot where probing for a key begins. */
    function Home(key: bytes): nat
      requires size > 0
    {
      And(if |key| <= 8 then hash64(Packed(key)) else hashBytes(key), size - 1)
    }

    ghost function Homes(): bytes -> nat
      requires size > 0
    {
      (key: bytes) => Home(key)
    }

    /** Every field has its place, and the table is not full. */
    ghost predicate Indexed()
      reads this, lens, packs, strs, vals
    {
      Valid() && Occupied(lens[..]) < size
      && exists dist: seq<nat> :: Holds(Contents(), fields, |fields|, Homes(), dist)
    }

    constructor (fields: seq<bytes>, hash64: nat -> nat, hashBytes: bytes -> nat, size: nat)
      requires IsPowerOfTwo(size) && size > 2 * |fields|
      ensures Valid() && this.fields == fields && this.size == size && this.hash64 == hash64 &&
        this.hashBytes == hashBytes
      ensures fresh(lens) && fresh(packs) && fresh(strs) && fresh(vals)
      ensures forall s | 0 <= s < size :: lens[s] == 0
    {
      this.fields, this.hash64, this.hashBytes, this.size := fields, hash64, hashBytes, size;
      lens := new nat[size](_ => 0);
      packs := new nat[size](_ => 0);
      strs := new bytes[size](_ => []);
      vals := new nat[size](_ => 0);
    }

    lemma {:induction false} HomeInRange(key: bytes)
      requires IsPowerOfTwo(size)
      ensures Home(key) < size
    {
      MaskIsRemainder(if |key| <= 8 then hash64(Packed(key)) else hashBytes(key), size);
    }

    /** The first empty slot from a key's home on. */
    method FindEmpty(home: nat) returns (idx: nat, ghost d: nat)
      requires Valid() && home < size && Occupied(lens[..]) < size
      ensures d < size && idx == Slot(home, d, size) && lens[idx] == 0 && Path(lens[..], home, d)
    {
      ghost var empty := EmptySlot(lens[..]);
      idx, d := home, 0;
      while lens[idx] != 0
        invariant d < size && idx == Slot(home, d, size) && Path(lens[..], home, d)
        decreases size - d
      {
        assert Path(lens[..], home, d + 1);
        ProbeStops(lens[..], home, d + 1, empty);
        NextSlot(home, d, size);
        idx := And(idx + 1, size - 1);
        d := d + 1;
      }
    }

    /** Writes an entry into an empty slot. */
    method Put(idx: nat, key: bytes, packed: nat, i: nat)
      requires Valid() && idx < size && packed == Packed(key)
      modifies lens, packs, strs, vals
      ensures var v := old(Contents());
        Contents() == View(v.lens[idx := StoredLength(key)], v.packs[idx := Packed(key)], v.strs[idx := key],
          v.vals[idx := i])
    {
      lens[idx] := |key| % 256;
      packs[idx] := packed;
      strs[idx] := key;
      vals[idx] := i;
    }

    /** Inserts field `i` behind its home. */
    method Insert(i: nat, ghost dist: seq<nat>) returns (ghost more: seq<nat>)
      requires Valid() && i < |fields| && Occupied(lens[..]) <= i
      requires Holds(Contents(), fields, i, Homes(), dist)
      modifies lens, packs, strs, vals
      ensures Occupied(lens[..]) <= i + 1 && Holds(Contents(), fields, i + 1, Homes(), more)
    {
      ghost var v := Contents();
      var key := fields[i];
      HomeInRange(key);
      var packed := PackKey(key);
      var home := And(if |key| <= 8 then hash64(packed) else hashBytes(key), size - 1);
      ghost var d;
      var idx;
      idx, d := FindEmpty(home);
      OccupiedUpdate(v.lens, idx, StoredLength(key));
      Put(idx, key, packed, i);
      more := dist + [d];
      assert Homes()(key) == home;
      InsertKeeps(v, fields, i, Homes(), dist, d, Contents());
    }

    /** Fills the table. It always ends, whatever the keys and the hash functions. Keys whose stored length is 0 leave
        no trace in it. */
    method Fill()
      requires Valid() && forall s | 0 <= s < size :: lens[s] == 0
      modifies lens, packs, strs, vals
      ensures Indexed()
    {
      ghost var dist: seq<nat> := [];
      NoneOccupied(lens[..]);
      var i: nat := 0;
      while i < |fields|
        invariant i <= |fields| && Occupied(lens[..]) <= i
        invariant Holds(Contents(), fields, i, Homes(), dist)
      {
        dist := Insert(i, dist);
        i := i + 1;
      }
    }

    /** Whether the entry in a slot is taken for the key. */
    method Compare(idx: nat, key: bytes, packed: nat) returns (taken: bool)
      requires Valid() && idx < size && packed == Packed(key)
      ensures taken <==> Matches(Contents(), idx, key)
    {
      if |key| <= 8 {
        return lens[idx] == |key| && packs[idx] == packed;
      }
      return strs[idx] == key;
    }

    /** Probes from a key's home on, up to the first entry that is taken for the key or the first empty slot. */
    method Probe(home: nat, key: bytes, packed: nat) returns (idx: nat, ghost d: nat)
      requires Valid() && home < size && Occupied(lens[..]) < size && packed == Packed(key)
      ensures d < size && idx == Slot(home, d, size) && Path(lens[..], home, d)
      ensures forall e | 0 <= e < d :: !Matches(Contents(), Slot(home, e, size), key)
      ensures lens[idx] != 0 ==> Matches(Contents(), idx, key)
    {
      ghost var empty := EmptySlot(lens[..]);
      idx, d := home, 0;
      while lens[idx] != 0
        invariant d < size && idx == Slot(home, d, size) && Path(lens[..], home, d)
        invariant forall e | 0 <= e < d :: !Matches(Contents(), Slot(home, e, size), key)
        decreases size - d
      {
        var taken := Compare(idx, key, packed);
        if taken {
          return;
        }
        assert Path(lens[..], home, d + 1);
        ProbeStops(lens[..], home, d + 1, empty);
        NextSlot(home, d, size);
        idx := And(idx + 1, size - 1);
        d := d + 1;
      }
    }

    /** Looks a key up. It always ends. A key that is not storable is never found; for every other key, and under all
        collisions and duplicate names, the answer is the first field with the key if and only if no entry that passes
        for the key stands in the way. */
    method Lookup(key: bytes) returns (r: Option<nat>)
      requires Indexed()
      ensures !Storable(key) ==> r == None
      ensures Storable(key) ==> (r == FirstMatch(fields, key) <==> !Intruded(Contents(), fields, Home(key), key))
      ensures HasTwin(fields, Homes(), key) ==> r.Some?
      ensures r.Some? ==> r.value < |fields| && (fields[r.value] == key || PassesFor(fields[r.value], key))
    {
      ghost var dist: seq<nat> :| Holds(Contents(), fields, |fields|, Homes(), dist);
      HomeInRange(key);
      var packed := PackKey(key);
      var home := And(if |key| <= 8 then hash64(packed) else hashBytes(key), size - 1);
      assert Homes()(key) == home;
      ghost var d;
      var idx;
      idx, d := Probe(home, key, packed);
      if lens[idx] != 0 {
        Hit(Contents(), fields, Homes(), dist, key, d);
        return Some(vals[idx]);
      }
      Miss(Contents(), fields, Homes(), dist, key, d);
      return None;
    }
  }

  /** What a lookup returns at the first entry that is taken for the key. */
  lemma {:induction false} Hit(v: View, fields: seq<bytes>, home: bytes -> nat, dist: seq<nat>, key: bytes, d: nat)
    requires Probed(v, fields, home, dist, key, d)
    requires var p := Slot(home(key), d, |v.lens|); v.lens[p] != 0 && Matches(v, p, key)
    ensures var i := v.vals[Slot(home(key), d, |v.lens|)];
      && Storable(key) && i < |fields| && (fields[i] == key || PassesFor(fields[i], key))
      && (FirstMatch(fields, key) == Some(i) <==> !Intruded(v, fields, home(key), key))
  {
    var p := Slot(home(key), d, |v.lens|);
    assert SlotOk(v, fields, |fields|, p);
    MatchesIffKey(v, fields, |fields|, p, key);
    if fields[v.vals[p]] == key {
      FirstFound(v, fields, home, dist, key, d);
      OwnEntry(v, fields, home, dist, key, d);
    } else {
      NoOwnEntry(v, fields, home, dist, key, d);
      assert Intrudes(v, fields, home(key), key, d);
    }
  }

  /** On the way of the probe there is no entry of the key and none that passes for it. */
  lemma {:induction false} NoOwnEntry(v: View, fields: seq<bytes>, home: bytes -> nat, dist: seq<nat>, key: bytes,
                                      d: nat)
    requires Probed(v, fields, home, dist, key, d)
    ensures forall e | 0 <= e < d ::
      Entry(v, fields, home(key), e).Some? && Entry(v, fields, home(key), e) != Some(key)
      && !PassesFor(Entry(v, fields, home(key), e).value, key)
  {
    forall e | 0 <= e < d
      ensures Entry(v, fields, home(key), e).Some? && Entry(v, fields, home(key), e) != Some(key)
      ensures !PassesFor(Entry(v, fields, home(key), e).value, key)
    {
      var p := Slot(home(key), e, |v.lens|);
      assert SlotOk(v, fields, |fields|, p);
      MatchesIffKey(v, fields, |fields|, p, key);
    }
  }

  /** Where the probe stops at the key's own entry, nothing intrudes. */
  lemma {:induction false} OwnEntry(v: View, fields: seq<bytes>, home: bytes -> nat, dist: seq<nat>, key: bytes, d: nat)
    requires Probed(v, fields, home, dist, key, d) && Entry(v, fields, home(key), d) == Some(key)
    ensures !Intruded(v, fields, home(key), key)
  {
    NoOwnEntry(v, fields, home, dist, key, d);
    forall e: nat ensures !Intrudes(v, fields, home(key), key, e) {
    }
  }

  /** What a lookup returns at an empty slot. */
  lemma {:induction false} Miss(v: View, fields: seq<bytes>, home: bytes -> nat, dist: seq<nat>, key: bytes, d: nat)
    requires Probed(v, fields, home, dist, key, d) && v.lens[Slot(home(key), d, |v.lens|)] == 0
    ensures Storable(key) ==> FirstMatch(fields, key) == None
    ensures !Intruded(v, fields, home(key), key) && !HasTwin(fields, home, key)
  {
    NoneFound(v, fields, home, dist, key, d);
    NoOwnEntry(v, fields, home, dist, key, d);
    forall e: nat ensures !Intrudes(v, fields, home(key), key, e) {
    }
  }

  /** The smallest power of two above twice the number of fields, by doubling. */
  method TableSize(n: nat) returns (size: nat)
    ensures IsPowerOfTwo(size) && 2 * n < size <= 4 * n + 1
  {
    size := 1;
    while size <= n * 2
      invariant IsPowerOfTwo(size) && size <= 4 * n + 1
      decreases 4 * n + 1 - size
    {
      size := size * 2;
    }
  }

  /** The whole way from a registry's keys to the field of a key: the scan for up to 16 fields, the table for more. The
      scan finds the first field with the key. So does the table, unless a long key passes for the key; and except for a
      key whose length is a multiple of 256: the table takes its slot for an empty one, so that a field with such a key
      is never found. A long key that passes for an absent key and has its hash is found instead. */
  method FindField(fields: seq<bytes>, key: bytes, hash64: nat -> nat, hashBytes: bytes -> nat) returns (r: Option<nat>)
    ensures |fields| <= 16 ==> r == FirstMatch(fields, key)
    ensures |fields| > 16 && !Confused(fields, key) ==>
      (r == FirstMatch(fields, key) <==> Storable(key) || key !in fields)
    ensures |fields| > 16 && !Storable(key) ==> r == None
    ensures |fields| > 16 && SharesHash(fields, key, hash64, hashBytes) ==> r.Some?
    ensures r.Some? ==> r.value < |fields| && (fields[r.value] == key || PassesFor(fields[r.value], key))
    ensures (forall i | 0 <= i < |fields| :: 1 <= |fields[i]| <= 255) ==> r == FirstMatch(fields, key)
  {
    if forall i | 0 <= i < |fields| :: 1 <= |fields[i]| <= 255 {
      ShortKeysStorable(fields, key);
    }
    if |fields| <= 16 {
      r := ScanFields(fields, key);
      return;
    }
    var size := TableSize(|fields|);
    var t := new Table(fields, hash64, hashBytes, size);
    t.Fill();
    r := t.Lookup(key);
    if !Confused(fields, key) {
      NothingIntrudes(t.Contents(), fields, t.Home(key), key);
    }
    if SharesHash(fields, key, hash64, hashBytes) {
      var i :| 0 <= i < |fields| && PassesFor(fields[i], key) && hashBytes(fields[i]) == hash64(Packed(key));
      assert t.Homes()(fields[i]) == t.Homes()(key);
    }
  }

  /** A long key that passes for the key has the key's hash. */
  predicate SharesHash(fields: seq<bytes>, key: bytes, hash64: nat -> nat, hashBytes: bytes -> nat) {
    exists i :: 0 <= i < |fields| && PassesFor(fields[i], key) && hashBytes(fields[i]) == hash64(Packed(key))
  }

  // ----- instances of what the table loses and confuses -----

  /** `n` zero bytes. */
  function Zeros(n: nat): (k: bytes)
    ensures |k| == n
  {
    seq(n, _ => 0)
  }

  /** Sixteen fields with short names, and one with a long name. */
  function Seventeen(long: bytes): (fields: seq<bytes>)
    ensures |fields| == 17 && fields[16] == long && forall i | 0 <= i < 16 :: fields[i] == [0x61 + i]
  {
    seq(16, i requires 0 <= i < 16 => [0x61 + i]) + [long]
  }

  /** Among 17 fields the one whose name has 256 bytes is not found, whatever the hash functions. */
  method LongNameLost(hash64: nat -> nat, hashBytes: bytes -> nat) returns (r: Option<nat>)
    ensures r == None && FirstMatch(Seventeen(Zeros(256)), Zeros(256)) == Some(16)
  {
    var fields, key := Seventeen(Zeros(256)), Zeros(256);
    forall i | 0 <= i < 16 ensures fields[i] != key {
      assert |fields[i]| == 1;
    }
    FirstMatchIs(fields, key, 16);
    r := FindField(fields, key, hash64, hashBytes);
  }

  /** Among 17 fields one whose name has 257 bytes is found for the name of one zero byte, which no field has, if the
      two names have the same hash. */
  method LongNameFound(hash64: nat -> nat, hashBytes: bytes -> nat) returns (r: Option<nat>)
    requires hashBytes(Zeros(257)) == hash64(0)
    ensures r == Some(16) && FirstMatch(Seventeen(Zeros(257)), [0]) == None
  {
    var fields: seq<bytes>, key: bytes := Seventeen(Zeros(257)), [0];
    assert Pack(key) == key[0] + 256 * Pack(key[1..]) && Packed(key) == 0;
    assert PassesFor(fields[16], key);
    forall i | 0 <= i < 17 ensures fields[i] != key {
      assert i < 16 ==> fields[i][0] == 0x61 + i;
    }
    r := FindField(fields, key, hash64, hashBytes);
  }
}
