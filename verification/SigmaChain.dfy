/** The list of resource names, kept as a chain of pages of bounded size. `Flat` is the list a
    caller thinks of; page i of the sequence is the grain with id i + 1, and grains past the
    end of the sequence are empty. */
module SigmaChain {
  import opened Sequences
  import opened Wrappers

  type Pages = seq<seq<string>>

  function Flat(ps: Pages): seq<string> {
    if |ps| == 0 then [] else ps[0] + Flat(ps[1..])
  }

  function Page(ps: Pages, i: nat): seq<string> {
    if i < |ps| then ps[i] else []
  }

  /** Every page but the last non-empty one is full. */
  predicate Packed(ps: Pages, capacity: nat) {
    |ps| != 0 ==>
      && |ps[0]| <= capacity
      && (|ps[0]| < capacity ==> Flat(ps[1..]) == [])
      && Packed(ps[1..], capacity)
  }

  predicate Distinct(names: seq<string>) {
    forall i, j :: 0 <= i < j < |names| ==> names[i] != names[j]
  }

  // ---- Facts about removal and pages ----

  lemma {:induction false} RemoveFirstLeft(a: seq<string>, b: seq<string>, name: string)
    requires name in a
    ensures RemoveFirst(a + b, name) == RemoveFirst(a, name) + b
    ensures |RemoveFirst(a, name)| == |a| - 1
  {
    assert (a + b)[0] == a[0] && (a + b)[1..] == a[1..] + b;
    if a[0] != name {
      RemoveFirstLeft(a[1..], b, name);
    }
  }

  lemma {:induction false} RemoveFirstRight(a: seq<string>, b: seq<string>, name: string)
    requires name !in a
    ensures RemoveFirst(a + b, name) == a + RemoveFirst(b, name)
  {
    if |a| == 0 {
      assert a + b == b;
    } else {
      assert (a + b)[0] == a[0] && (a + b)[1..] == a[1..] + b;
      RemoveFirstRight(a[1..], b, name);
    }
  }

  lemma FlatFrom(ps: Pages, i: nat)
    requires i < |ps|
    ensures Flat(ps[i..]) == ps[i] + Flat(ps[i + 1..])
  {
    assert ps[i..][1..] == ps[i + 1..];
  }

  lemma PackedFrom(ps: Pages, i: nat, capacity: nat)
    requires i < |ps|
    ensures Packed(ps[i..], capacity) <==>
            |ps[i]| <= capacity && (|ps[i]| < capacity ==> Flat(ps[i + 1..]) == []) && Packed(ps[i + 1..], capacity)
  {
    assert ps[i..][1..] == ps[i + 1..];
  }

  lemma {:induction false} FlatEmpty(ps: Pages, capacity: nat)
    requires Packed(ps, capacity) && 0 < capacity && Page(ps, 0) == []
    ensures Flat(ps) == []
  {
  }

  /** Where the scan of `AddAsync` stops: the first page from j on with room or with the name. */
  function ScanEnd(ps: Pages, j: nat, name: string, capacity: nat): (k: nat)
    requires j <= |ps|
    ensures j <= k <= |ps|
    ensures name in Page(ps, k) || |Page(ps, k)| < capacity || k == |ps|
    decreases |ps| - j
  {
    if j < |ps| && |Page(ps, j)| >= capacity && name !in Page(ps, j) then ScanEnd(ps, j + 1, name, capacity) else j
  }

  function Appended(ps: Pages, k: nat, name: string): Pages
    requires k <= |ps|
  {
    if k < |ps| then ps[k := ps[k] + [name]] else ps + [[name]]
  }

  predicate HasRoomFor(ps: Pages, i: nat, name: string, capacity: nat) {
    |Page(ps, i)| < capacity && name !in Page(ps, i)
  }

  /** The pages after `AddAsync` on page i, and its answer. The page itself is not searched for
      the name unless there is room on it. */
  function Added(ps: Pages, i: nat, name: string, capacity: nat): (Pages, bool)
    requires 0 < capacity && i <= |ps|
  {
    if HasRoomFor(ps, i, name, capacity) then (Appended(ps, i, name), true)
    else
      var k := ScanEnd(ps, i + 1, name, capacity);
      if name in Page(ps, k) then (ps, false) else (Appended(ps, k, name), true)
  }

  /** The grains of the chain. `RemoveAsync` and `ChainupAsync` call each other down the chain;
      a grain call returns a copy, so a page's list read from outside is a snapshot. */
  class ChainStore {
    const capacity: nat
    var pages: Pages

    constructor (capacity: nat)
      ensures this.capacity == capacity && pages == []
    {
      this.capacity := capacity;
      pages := [];
    }

    method AddAsync(i: nat, name: string) returns (result: bool)
      requires 0 < capacity && i <= |pages|
      modifies this`pages
      ensures (pages, result) == Added(old(pages), i, name, capacity)
      decreases |pages| - i
    {
      if |Page(pages, i)| < capacity && name !in Page(pages, i) {
        pages := Appended(pages, i, name);
        return true;
      }
      var nextId := i + 1;
      while |Page(pages, nextId)| >= capacity
        invariant pages == old(pages) && i < nextId <= |pages|
        invariant ScanEnd(pages, i + 1, name, capacity) == ScanEnd(pages, nextId, name, capacity)
        decreases |pages| - nextId
      {
        if name in Page(pages, nextId) {
          return false;
        }
        nextId := nextId + 1;
      }
      if name in Page(pages, nextId) {
        return false;
      }
      result := AddAsync(nextId, name);
    }

    /** On any chain: the first copy that can be reached goes, the others keep their order. The
        page itself is left empty only if it was, or held that name alone. */
    method RemoveAsync(i: nat, name: string) returns (result: bool)
      requires i <= |pages| && (Reaches(pages[i..], name) || Page(pages, i + 1) == [])
      modifies this`pages
      ensures |pages| == |old(pages)| && pages[..i] == old(pages)[..i]
      ensures result == Reaches(old(pages)[i..], name)
      ensures if result then Flat(pages[i..]) == RemoveFirst(Flat(old(pages)[i..]), name) else pages == old(pages)
      ensures name in Page(old(pages), i) ==> RemoveFirst(Page(old(pages), i), name) <= Page(pages, i)
      ensures Page(pages, i) == [] <==> Page(old(pages), i) == [] || Page(old(pages), i) == [name]
      ensures 2 <= capacity && Packed(old(pages)[i..], capacity) ==> Packed(pages[i..], capacity)
      decreases |pages| - i, 3
    {
      ReachesFrom(pages, i, name);
      if name in Page(pages, i) {
        FlatFrom(pages, i);
        PackedFrom(pages, i, capacity);
        RemoveFirstLeft(pages[i], Flat(pages[i + 1..]), name);
        ghost var rest := pages[i + 1..];
        pages := pages[i := RemoveFirst(pages[i], name)];
        assert pages[i + 1..] == rest;
        FlatFrom(pages, i);
        RefillableFrom(pages, i, capacity);
        ChainupAsync(i);
        return true;
      }
      result := false;
      while !result
        invariant !result ==> pages == old(pages)
        invariant result ==> |pages| == |old(pages)| && i < |pages| && pages[..i + 1] == old(pages)[..i + 1]
        invariant result ==> Reaches(old(pages)[i..], name)
        invariant result ==> Flat(pages[i + 1..]) == RemoveFirst(Flat(old(pages)[i + 1..]), name)
        invariant result && 2 <= capacity && Packed(old(pages)[i + 1..], capacity) ==> Packed(pages[i + 1..], capacity)
        decreases !result
      {
        var count := |Page(pages, i + 1)|;
        if count == 0 {
          break;
        }
        result := RemoveAsync(i + 1, name);
      }
      if result {
        KeepsBefore(old(pages), pages, i);
        FlatFrom(old(pages), i);
        FlatFrom(pages, i);
        PackedFrom(old(pages), i, capacity);
        RemoveFirstRight(pages[i], Flat(old(pages)[i + 1..]), name);
        RefillableFrom(pages, i, capacity);
        ChainupAsync(i);
      }
    }

    /** Moves the first names of the next page, one at a time, to the end of page i. */
    method MoveUp(i: nat, list: seq<string>, delta: nat)
      requires i < |pages| && delta <= |list| && list <= Page(pages, i + 1)
      modifies this`pages
      ensures |pages| == |old(pages)| && pages[..i] == old(pages)[..i]
      ensures pages[i] == old(pages)[i] + list[..delta]
      ensures Flat(pages[i..]) == Flat(old(pages)[i..])
      ensures 2 <= capacity && Packed(old(pages)[i + 1..], capacity) ==> Packed(pages[i + 1..], capacity)
      decreases |pages| - i, 1
    {
      ghost var own := pages[i];
      for k := 0 to delta
        invariant |pages| == |old(pages)| && pages[..i] == old(pages)[..i]
        invariant list[k..] <= Page(pages, i + 1)
        invariant pages[i] == own + list[..k] && Flat(pages[i..]) == Flat(old(pages)[i..])
        invariant 2 <= capacity && Packed(old(pages)[i + 1..], capacity) ==> Packed(pages[i + 1..], capacity)
      {
        MoveOne(i, list[k]);
        TakeOneMore(list, k);
        Concat(own, list[..k], [list[k]]);
        assert list[k..][1..] == list[k + 1..];
      }
    }

    method MoveOne(i: nat, name: string)
      requires i < |pages| && Page(pages, i + 1) != [] && Page(pages, i + 1)[0] == name
      modifies this`pages
      ensures |pages| == |old(pages)| && pages[..i] == old(pages)[..i]
      ensures pages[i] == old(pages)[i] + [name] && Page(old(pages), i + 1)[1..] <= Page(pages, i + 1)
      ensures Flat(pages[i..]) == Flat(old(pages)[i..])
      ensures 2 <= capacity && Packed(old(pages)[i + 1..], capacity) ==> Packed(pages[i + 1..], capacity)
      decreases |pages| - i, 0
    {
      FlatFrom(pages, i);
      FlatFrom(pages, i + 1);
      ghost var own, later := pages[i], Flat(pages[i + 1..]);
      pages := pages[i := pages[i] + [name]];
      assert pages[i + 1..] == old(pages)[i + 1..];
      ghost var before := pages;
      ReachesFrom(pages, i + 1, name);
      var removed := RemoveAsync(i + 1, name);
      KeepsBefore(before, pages, i);
      FlatFrom(pages, i);
      assert later == [name] + later[1..];
      Concat(own, [name], later[1..]);
    }

    /** Refills page i from the pages after it; the list as a whole does not change. */
    method ChainupAsync(i: nat)
      requires i < |pages|
      modifies this`pages
      ensures |pages| == |old(pages)| && pages[..i] == old(pages)[..i]
      ensures Flat(pages[i..]) == Flat(old(pages)[i..])
      ensures old(pages)[i] <= pages[i] && (old(pages)[i] == [] ==> pages[i] == [])
      ensures 2 <= capacity && Refillable(old(pages)[i..], capacity) ==> Packed(pages[i..], capacity)
      decreases |pages| - i, 2
    {
      RefillableFrom(pages, i, capacity);
      if |pages[i]| == 0 {
        PackedFrom(pages, i, capacity);
        return;
      }
      var count := |pages[i]|;
      var nextCount := |Page(pages, i + 1)|;
      if count <= capacity && nextCount > 0 {
        var list := Page(pages, i + 1);
        var qty := capacity - count;
        var delta := if qty > |list| then |list| else qty;
        MoveUp(i, list, delta);
        nextCount := |Page(pages, i + 1)|;
        RefilledFrom(old(pages), pages, i, capacity, delta);
        if nextCount > 0 {
          ghost var moved := pages;
          FlatFrom(moved, i);
          RefillableWhenPacked(moved, i + 1, capacity);
          ChainupAsync(i + 1);
          KeepsBefore(moved, pages, i);
          FlatFrom(pages, i);
          PackedFrom(moved, i, capacity);
          PackedFrom(pages, i, capacity);
        }
      } else if count <= capacity {
        NextPageEmpty(pages, i, capacity);
      }
    }
  }

  /** What RemoveAsync finds: the name is on the first page, or can be reached over pages that
      are not empty. */
  predicate Reaches(ps: Pages, name: string) {
    |ps| != 0 && (name in ps[0] || (Page(ps, 1) != [] && Reaches(ps[1..], name)))
  }

  lemma ReachesFrom(ps: Pages, i: nat, name: string)
    requires i <= |ps|
    ensures Reaches(ps[i..], name) <==>
              name in Page(ps, i) || (Page(ps, i + 1) != [] && Reaches(ps[i + 1..], name))
  {
    if i < |ps| {
      assert ps[i..][1..] == ps[i + 1..] && Page(ps[i..], 1) == Page(ps, i + 1);
    }
  }

  lemma KeepsBefore(before: Pages, after: Pages, i: nat)
    requires i < |before| == |after| && after[..i + 1] == before[..i + 1]
    ensures after[i] == before[i] && after[..i] == before[..i]
  {
    assert after[i] == after[..i + 1][i] && before[i] == before[..i + 1][i];
    assert after[..i] == after[..i + 1][..i] && before[..i] == before[..i + 1][..i];
  }

  /** A first page within the capacity before a packed rest, empty only if the rest is. */
  predicate Refillable(ps: Pages, capacity: nat) {
    |ps| != 0 && |ps[0]| <= capacity && Packed(ps[1..], capacity) && (ps[0] == [] ==> Flat(ps[1..]) == [])
  }

  lemma RefillableFrom(ps: Pages, i: nat, capacity: nat)
    requires i < |ps|
    ensures Refillable(ps[i..], capacity) <==>
              |ps[i]| <= capacity && Packed(ps[i + 1..], capacity) && (ps[i] == [] ==> Flat(ps[i + 1..]) == [])
  {
    assert ps[i..][1..] == ps[i + 1..];
  }

  lemma RefillableWhenPacked(ps: Pages, i: nat, capacity: nat)
    requires i < |ps|
    ensures 0 < capacity && Packed(ps[i..], capacity) ==> Refillable(ps[i..], capacity)
  {
    PackedFrom(ps, i, capacity);
    RefillableFrom(ps, i, capacity);
  }

  lemma NextPageEmpty(ps: Pages, i: nat, capacity: nat)
    requires i < |ps| && Page(ps, i + 1) == []
    ensures 0 < capacity && Refillable(ps[i..], capacity) ==> Packed(ps[i..], capacity)
  {
    RefillableFrom(ps, i, capacity);
    PackedFrom(ps, i, capacity);
    if 0 < capacity && Refillable(ps[i..], capacity) {
      FlatEmpty(ps[i + 1..], capacity);
    }
  }

  /** After the first names of the next page have moved up, the page is full or nothing is left. */
  lemma RefilledFrom(before: Pages, after: Pages, i: nat, capacity: nat, delta: nat)
    requires i < |before| == |after| && |before[i]| <= capacity && Page(before, i + 1) != []
    requires delta == if capacity - |before[i]| > |before[i + 1]| then |before[i + 1]| else capacity - |before[i]|
    requires after[i] == before[i] + before[i + 1][..delta] && Flat(after[i..]) == Flat(before[i..])
    ensures 2 <= capacity && Refillable(before[i..], capacity) && Packed(after[i + 1..], capacity) ==>
              Packed(after[i..], capacity)
  {
    RefillableFrom(before, i, capacity);
    PackedFrom(after, i, capacity);
    if Refillable(before[i..], capacity) && |after[i]| < capacity {
      PackedFrom(before, i + 1, capacity);
      FlatFrom(before, i);
      FlatFrom(before, i + 1);
      FlatFrom(after, i);
      assert before[i + 1][..delta] == before[i + 1];
      assert before[i + 1] + [] == before[i + 1];
    }
  }

  /** In a packed chain every name can be reached. */
  lemma {:induction false} PackedReaches(ps: Pages, capacity: nat, name: string)
    requires 0 < capacity && Packed(ps, capacity)
    ensures Reaches(ps, name) <==> name in Flat(ps)
  {
    if |ps| != 0 {
      PackedReaches(ps[1..], capacity, name);
      if Page(ps, 1) == [] {
        FlatEmpty(ps[1..], capacity);
      }
    }
  }

  // ---- Adding refines append-if-absent, except for names on the first page ----

  lemma {:induction false} FlatPage(ps: Pages, i: nat, name: string)
    requires name in Page(ps, i)
    ensures name in Flat(ps)
  {
    if i != 0 {
      FlatPage(ps[1..], i - 1, name);
    }
  }

  lemma {:induction false} FlatInSome(ps: Pages, name: string) returns (i: nat)
    requires name in Flat(ps)
    ensures i < |ps| && name in ps[i]
  {
    if name in ps[0] {
      i := 0;
    } else {
      var j := FlatInSome(ps[1..], name);
      i := j + 1;
    }
  }

  lemma {:induction false} FlatAppended(ps: Pages, k: nat, name: string, capacity: nat)
    requires k <= |ps| && Packed(ps, capacity) && 0 < capacity
    requires |Page(ps, k)| < capacity
    requires forall j :: 0 <= j < k ==> |ps[j]| == capacity
    ensures Flat(Appended(ps, k, name)) == Flat(ps) + [name]
    ensures Packed(Appended(ps, k, name), capacity)
  {
    if |ps| == 0 {
      FlatOne(name, capacity);
    } else if k == 0 {
      AppendedFirst(ps, name, capacity);
    } else {
      assert forall j :: 0 <= j < k - 1 ==> ps[1..][j] == ps[j + 1];
      FlatAppended(ps[1..], k - 1, name, capacity);
      AppendedLater(ps, k, name);
      Concat(ps[0], Flat(ps[1..]), [name]);
    }
  }

  lemma FlatOne(name: string, capacity: nat)
    requires 0 < capacity
    ensures Flat([[name]]) == [name] && Packed([[name]], capacity)
  {
    assert [[name]][1..] == [];
  }

  lemma AppendedFirst(ps: Pages, name: string, capacity: nat)
    requires |ps| != 0 && Packed(ps, capacity) && |ps[0]| < capacity
    ensures Flat(Appended(ps, 0, name)) == Flat(ps) + [name] && Packed(Appended(ps, 0, name), capacity)
  {
    assert Appended(ps, 0, name)[1..] == ps[1..];
  }

  lemma AppendedLater(ps: Pages, k: nat, name: string)
    requires 0 < k <= |ps|
    ensures Appended(ps, k, name)[0] == ps[0]
    ensures Appended(ps, k, name)[1..] == Appended(ps[1..], k - 1, name)
  {
  }

  /** The pages the scan passes over are full and lack the name. */
  lemma {:induction false} ScanPasses(ps: Pages, j: nat, name: string, capacity: nat)
    requires j <= |ps|
    ensures forall m :: j <= m < ScanEnd(ps, j, name, capacity) ==> |ps[m]| >= capacity && name !in ps[m]
    decreases |ps| - j
  {
    if j < |ps| && |Page(ps, j)| >= capacity && name !in Page(ps, j) {
      ScanPasses(ps, j + 1, name, capacity);
    }
  }

  /** In a packed chain nothing follows a page with room. */
  lemma {:induction false} PackedPages(ps: Pages, k: nat, capacity: nat)
    requires Packed(ps, capacity)
    ensures |Page(ps, k)| <= capacity
    ensures |Page(ps, k)| < capacity ==> forall m :: k < m < |ps| ==> ps[m] == []
  {
    if |ps| != 0 {
      if k == 0 {
        if |ps[0]| < capacity {
          forall m | 0 < m < |ps| ensures ps[m] == [] {
            if ps[m] != [] {
              FlatPage(ps[1..], m - 1, ps[m][0]);
            }
          }
        }
      } else {
        PackedPages(ps[1..], k - 1, capacity);
      }
    }
  }

  /** The scan of a packed chain decides whether a later page holds the name. */
  lemma ScanDecides(ps: Pages, name: string, capacity: nat)
    requires 0 < capacity && 0 < |ps| && Packed(ps, capacity)
    ensures var k := ScanEnd(ps, 1, name, capacity);
            && (name in Page(ps, k) <==> name in Flat(ps[1..]))
            && (name !in Page(ps, k) ==> |Page(ps, k)| < capacity)
            && forall m :: 1 <= m < k ==> |ps[m]| == capacity
  {
    var k := ScanEnd(ps, 1, name, capacity);
    ScanPasses(ps, 1, name, capacity);
    forall m | 1 <= m < k ensures |ps[m]| == capacity { PackedPages(ps, m, capacity); }
    if name in Page(ps, k) {
      assert Page(ps[1..], k - 1) == Page(ps, k);
      FlatPage(ps[1..], k - 1, name);
    } else if name in Flat(ps[1..]) {
      var i := FlatInSome(ps[1..], name);
      assert name in ps[i + 1];
      PackedPages(ps, k, capacity);
    }
  }

  predicate AppendedIfAbsent(ps: Pages, name: string, after: Pages, result: bool) {
    && result == (name !in Flat(ps))
    && Flat(after) == if result then Flat(ps) + [name] else Flat(ps)
  }

  /** On every packed chain, adding is append-if-absent exactly when the name is not on the
      first page alone: a name found there is looked for, and added again, further on. */
  lemma AddIsAppendIfAbsent(ps: Pages, name: string, capacity: nat)
    requires 0 < capacity && Packed(ps, capacity)
    ensures var (after, result) := Added(ps, 0, name, capacity);
            && (AppendedIfAbsent(ps, name, after, result)
                <==> (name in Page(ps, 0) ==> name in Flat(ps[1..])))
            && (name !in Page(ps, 0) ==> Packed(after, capacity))
  {
    if HasRoomFor(ps, 0, name, capacity) {
      FlatAppended(ps, 0, name, capacity);
      PackedPages(ps, 0, capacity);
      if name in Flat(ps) {
        var i := FlatInSome(ps, name);
        assert false;
      }
    } else {
      ScanDecides(ps, name, capacity);
      PackedPages(ps, 0, capacity);
      var k := ScanEnd(ps, 1, name, capacity);
      if name !in Page(ps, k) && name !in ps[0] {
        FlatAppended(ps, k, name, capacity);
      }
    }
  }

  /** Adding keeps a chain packed exactly when it does not find the name on a first page that
      still has room: that copy goes to the second page, and the first stays short. */
  lemma AddKeepsPackedIff(ps: Pages, name: string, capacity: nat)
    requires 0 < capacity && Packed(ps, capacity)
    ensures Packed(Added(ps, 0, name, capacity).0, capacity)
            <==> !(name in Page(ps, 0) && |Page(ps, 0)| < capacity)
  {
    AddIsAppendIfAbsent(ps, name, capacity);
    if name in Page(ps, 0) {
      ScanDecides(ps, name, capacity);
      var k := ScanEnd(ps, 1, name, capacity);
      if |ps[0]| == capacity {
        if name !in Page(ps, k) {
          FlatAppended(ps, k, name, capacity);
        }
      } else {
        PackedPages(ps, 0, capacity);
        assert name !in Page(ps, k) && k == 1;
        var after := Appended(ps, 1, name);
        assert after[1..][0] == [name];
        assert after[0] == ps[0] && name in Flat(after[1..]);
      }
    }
  }

  /** On any chain: an add is refused exactly when it finds the name on the first later page
      that has room or the name; otherwise one copy goes to the end of the first page that can
      take it, and every page passed over is full or is the first and holds the name. */
  lemma AddGoesToTheFirstRoom(ps: Pages, name: string, capacity: nat) returns (k: nat)
    requires 0 < capacity
    ensures var (after, result) := Added(ps, 0, name, capacity);
            && k <= |ps|
            && (forall j :: 0 <= j < k ==> |ps[j]| >= capacity || (j == 0 && name in ps[0]))
            && (forall j :: 1 <= j < k ==> name !in ps[j])
            && (if result then
                  && name !in Page(ps, k) && |Page(ps, k)| < capacity
                  && after == (if k < |ps| then ps[k := ps[k] + [name]] else ps + [[name]])
                else 0 < k < |ps| && name in ps[k] && after == ps)
  {
    if HasRoomFor(ps, 0, name, capacity) {
      k := 0;
    } else {
      k := ScanEnd(ps, 1, name, capacity);
      ScanPasses(ps, 1, name, capacity);
    }
  }

  /** Append-if-absent keeps the names distinct. */
  lemma AppendIfAbsentKeepsDistinct(ps: Pages, name: string, after: Pages, result: bool)
    requires Distinct(Flat(ps)) && AppendedIfAbsent(ps, name, after, result)
    ensures Distinct(Flat(after))
  {
  }

  lemma {:induction false} RemoveFirstKeepsDistinct(names: seq<string>, name: string)
    requires Distinct(names)
    ensures Distinct(RemoveFirst(names, name)) && name !in RemoveFirst(names, name)
    ensures forall x <- RemoveFirst(names, name) :: x in names
  {
    if |names| != 0 {
      DistinctTail(names);
      if names[0] != name {
        RemoveFirstKeepsDistinct(names[1..], name);
        DistinctCons(names[0], RemoveFirst(names[1..], name));
      }
    }
  }

  lemma DistinctTail(names: seq<string>)
    requires Distinct(names) && |names| != 0
    ensures Distinct(names[1..]) && names[0] !in names[1..]
  {
    assert forall j :: 0 <= j < |names| - 1 ==> names[1..][j] == names[j + 1];
  }

  lemma DistinctCons(x: string, rest: seq<string>)
    requires Distinct(rest) && x !in rest
    ensures Distinct([x] + rest)
  {
  }

  // ---- Where the loops do not end ----

  /** The control flow of `RemoveAsync` for a name it cannot reach, on the pages from its own
      on, cut off after `fuel` calls and turns: None means it has not returned yet. No page
      changes on this path. */
  function RemoveRun(ps: Pages, name: string, fuel: nat): Option<bool>
    requires !Reaches(ps, name)
  {
    if fuel == 0 then None
    else if Page(ps, 1) == [] then Some(false)
    else
      match RemoveRun(ps[1..], name, fuel - 1)
      case Some(true) => Some(true)
      case Some(false) => RemoveRun(ps, name, fuel - 1)
      case None => None
  }

  /** Removing a name that cannot be reached returns exactly when the next page is empty; in a
      packed chain those are the absent names. */
  lemma RemoveAbsentReturns(ps: Pages, name: string)
    requires !Reaches(ps, name)
    ensures (exists fuel :: RemoveRun(ps, name, fuel).Some?) <==> Page(ps, 1) == []
  {
    if Page(ps, 1) == [] {
      assert RemoveRun(ps, name, 1).Some?;
    } else {
      forall fuel ensures RemoveRun(ps, name, fuel).None? {
        RemoveAbsentLoops(ps, name, fuel);
      }
    }
  }

  lemma {:induction false} RemoveAbsentLoops(ps: Pages, name: string, fuel: nat)
    requires !Reaches(ps, name)
    ensures RemoveRun(ps, name, fuel) != Some(true)
    ensures Page(ps, 1) != [] ==> RemoveRun(ps, name, fuel).None?
    decreases fuel
  {
    if fuel != 0 && Page(ps, 1) != [] {
      RemoveAbsentLoops(ps[1..], name, fuel - 1);
      RemoveAbsentLoops(ps, name, fuel - 1);
    }
  }

  /** The loop of `SigmaAlgebra.ContainsAsync` from page i on, entered with a first page that is
      not empty; its count is never read again. */
  function ContainsRun(ps: Pages, i: nat, name: string, fuel: nat): Option<bool>
    decreases fuel
  {
    if fuel == 0 then None
    else if name in Page(ps, i) then Some(true)
    else ContainsRun(ps, i + 1, name, fuel - 1)
  }

  /** With a non-empty first page the search returns exactly when the name is there. */
  lemma ContainsReturns(ps: Pages, name: string)
    ensures (exists fuel :: ContainsRun(ps, 0, name, fuel).Some?) <==> name in Flat(ps)
  {
    if name in Flat(ps) {
      var i := FlatInSome(ps, name);
      ContainsFinds(ps, 0, i, name);
    } else {
      forall fuel ensures ContainsRun(ps, 0, name, fuel).None? {
        ContainsLoops(ps, 0, name, fuel);
      }
    }
  }

  lemma {:induction false} ContainsFinds(ps: Pages, i: nat, found: nat, name: string)
    requires i <= found && name in Page(ps, found)
    ensures ContainsRun(ps, i, name, found - i + 1).Some?
    decreases found - i
  {
    if i < found && name !in Page(ps, i) {
      ContainsFinds(ps, i + 1, found, name);
    }
  }

  lemma {:induction false} ContainsLoops(ps: Pages, i: nat, name: string, fuel: nat)
    requires name !in Flat(ps)
    ensures ContainsRun(ps, i, name, fuel).None?
    decreases fuel
  {
    if fuel != 0 {
      if name in Page(ps, i) {
        FlatPage(ps, i, name);
      }
      ContainsLoops(ps, i + 1, name, fuel - 1);
    }
  }

  // ---- Whole-chain reads ----

  /** What the reads see: the pages before the first empty one. */
  function Reached(ps: Pages): seq<string> {
    if |ps| == 0 || ps[0] == [] then [] else ps[0] + Reached(ps[1..])
  }

  /** No empty page comes before one that is not empty. */
  predicate Gapless(ps: Pages) {
    forall i, j :: 0 <= i < j < |ps| && ps[j] != [] ==> ps[i] != []
  }

  /** The reads see the whole list exactly when the chain has no gap, and a prefix otherwise. */
  lemma {:induction false} ReachedIffGapless(ps: Pages)
    ensures Reached(ps) <= Flat(ps)
    ensures Reached(ps) == Flat(ps) <==> Gapless(ps)
    ensures |Reached(ps)| == |Flat(ps)| <==> Gapless(ps)
  {
    if |ps| != 0 {
      ReachedIffGapless(ps[1..]);
      if ps[0] != [] {
        GaplessTail(ps);
      } else {
        EmptyHeadGapless(ps);
      }
    }
  }

  /** What the reads gather are the pages before the first empty one. */
  lemma {:induction false} ReachedIs(ps: Pages, k: nat)
    requires k <= |ps| && Page(ps, k) == [] && forall j :: 0 <= j < k ==> ps[j] != []
    ensures Reached(ps) == Flat(ps[..k])
  {
    if k > 0 {
      assert forall j :: 0 <= j < k - 1 ==> ps[1..][j] == ps[j + 1];
      ReachedIs(ps[1..], k - 1);
      assert ps[..k][1..] == ps[1..][..k - 1];
    }
  }

  lemma GaplessTail(ps: Pages)
    requires |ps| != 0 && ps[0] != []
    ensures Gapless(ps) <==> Gapless(ps[1..])
  {
    if Gapless(ps[1..]) {
      forall i, j | 0 <= i < j < |ps| && ps[j] != [] ensures ps[i] != [] {
        if i > 0 {
          assert ps[1..][j - 1] != [];
        }
      }
    } else {
      var i, j :| 0 <= i < j < |ps[1..]| && ps[1..][j] != [] && ps[1..][i] == [];
      assert ps[j + 1] != [] && ps[i + 1] == [];
    }
  }

  lemma EmptyHeadGapless(ps: Pages)
    requires |ps| != 0 && ps[0] == []
    ensures Gapless(ps) <==> Flat(ps) == []
  {
    if Flat(ps) != [] {
      var m := FlatInSome(ps, Flat(ps)[0]);
      assert ps[m] != [];
    } else {
      forall j | 0 < j < |ps| ensures ps[j] == [] {
        if ps[j] != [] {
          FlatPage(ps, j, ps[j][0]);
        }
      }
    }
  }

  /** Packed chains have no gaps, so on them the reads see the whole list. */
  lemma {:induction false} PackedIsReached(ps: Pages, capacity: nat)
    requires 0 < capacity && Packed(ps, capacity)
    ensures Reached(ps) == Flat(ps) && Gapless(ps)
  {
    ReachedIffGapless(ps);
    if |ps| != 0 {
      PackedIsReached(ps[1..], capacity);
    }
  }

  /** Adding never makes a gap, so only a removal can. */
  lemma AddKeepsGapless(ps: Pages, name: string, capacity: nat)
    requires 0 < capacity && Gapless(ps)
    ensures Gapless(Added(ps, 0, name, capacity).0)
  {
    if !HasRoomFor(ps, 0, name, capacity) {
      var k := ScanEnd(ps, 1, name, capacity);
      ScanPasses(ps, 1, name, capacity);
      if name !in Page(ps, k) {
        var after := Appended(ps, k, name);
        forall i, j | 0 <= i < j < |after| && after[j] != [] ensures after[i] != [] {
          assert i < k ==> after[i] == ps[i] && ps[i] != [];
        }
      }
    }
  }

  lemma ReachedFrom(ps: Pages, i: nat)
    ensures Page(ps, i) != [] ==> Reached(Rest(ps, i)) == Page(ps, i) + Reached(Rest(ps, i + 1))
    ensures Page(ps, i) == [] ==> Reached(Rest(ps, i)) == []
    ensures i == 0 ==> Rest(ps, i) == ps
  {
    if i < |ps| {
      assert ps[i..][1..] == ps[i + 1..];
    }
  }

  method ContainsAsync(store: ChainStore, name: string) returns (result: bool)
    requires Page(store.pages, 0) == [] || name in Flat(store.pages)
    ensures result == (Page(store.pages, 0) != [] && name in Flat(store.pages))
  {
    var id := 0;
    if name in Page(store.pages, id) {
      FlatPage(store.pages, id, name);
      return true;
    }
    var cnt := |Page(store.pages, 0)|;
    if cnt == 0 {
      return false;
    }
    ghost var found := FlatInSome(store.pages, name);
    while cnt > 0
      invariant 0 <= id < found && forall j :: 0 <= j <= id ==> name !in Page(store.pages, j)
      decreases found - id
    {
      id := id + 1;
      if name in Page(store.pages, id) {
        return true;
      }
    }
    return false;
  }

  method GetCountAsync(store: ChainStore) returns (total: nat)
    ensures total == |Reached(store.pages)|
    ensures total == |Flat(store.pages)| <==> Gapless(store.pages)
  {
    var id := 0;
    var cnt := |Page(store.pages, id)|;
    total := cnt;
    ReachedFrom(store.pages, 0);
    while cnt > 0
      invariant id <= |store.pages| && cnt == |Page(store.pages, id)|
      invariant total + (if cnt > 0 then |Reached(Rest(store.pages, id + 1))| else 0) == |Reached(store.pages)|
      decreases |store.pages| - id
    {
      ReachedFrom(store.pages, id + 1);
      id := id + 1;
      cnt := |Page(store.pages, id)|;
      total := total + cnt;
    }
    ReachedIffGapless(store.pages);
  }

  /** The list `GetListAsync` gathers page by page, before it is sorted. */
  method CollectAsync(store: ChainStore) returns (list: seq<string>)
    ensures list == Reached(store.pages)
  {
    list := [];
    var id := 0;
    var cnt := |Page(store.pages, id)|;
    ReachedFrom(store.pages, 0);
    while cnt > 0
      invariant id <= |store.pages| && cnt == |Page(store.pages, id)|
      invariant list + Reached(Rest(store.pages, id)) == Reached(store.pages)
      decreases |store.pages| - id
    {
      ReachedFrom(store.pages, id);
      Concat(list, Page(store.pages, id), Reached(Rest(store.pages, id + 1)));
      list := list + Page(store.pages, id);
      id := id + 1;
      cnt := |Page(store.pages, id)|;
    }
    ReachedFrom(store.pages, id);
  }

  /** Adding a name of a first page with room twice and removing it once hides what is left:
      the first page is empty, and the count reads zero. */
  method AddTwiceThenRemove(capacity: nat, name: string) returns (count: nat, left: seq<string>)
    requires 0 < capacity
    ensures count == 0 && left == [name]
  {
    var store := new ChainStore(capacity);
    var added := store.AddAsync(0, name);
    assert store.pages == [[name]];
    added := store.AddAsync(0, name);
    ghost var both := store.pages;
    assert both == [[name], [name]] && both[0..] == both;
    assert both[1..] == [[name]] && [[name]][1..] == [];
    assert Flat([[name]]) == [name] + Flat([]) && Flat(both) == [name] + Flat(both[1..]);
    added := store.RemoveAsync(0, name);
    assert store.pages[0..] == store.pages;
    count := GetCountAsync(store);
    left := Flat(store.pages);
  }

  function Rest(ps: Pages, i: nat): Pages {
    if i <= |ps| then ps[i..] else []
  }

  lemma PagesSum(ps: Pages, i: nat)
    ensures Flat(Rest(ps, i)) == Page(ps, i) + Flat(Rest(ps, i + 1))
  {
    if i < |ps| {
      FlatFrom(ps, i);
    }
  }

  lemma PackedRest(ps: Pages, i: nat, capacity: nat)
    requires 0 < capacity && Packed(Rest(ps, i), capacity)
    ensures Packed(Rest(ps, i + 1), capacity)
    ensures Page(ps, i) == [] ==> Flat(Rest(ps, i + 1)) == []
  {
    if i < |ps| {
      PackedFrom(ps, i, capacity);
    }
  }

  function Filtered(names: seq<string>, keep: string -> bool): seq<string> {
    if |names| == 0 then [] else (if keep(names[0]) then [names[0]] else []) + Filtered(names[1..], keep)
  }

  lemma {:induction false} FilteredConcat(a: seq<string>, b: seq<string>, keep: string -> bool)
    ensures Filtered(a + b, keep) == Filtered(a, keep) + Filtered(b, keep)
  {
    if |a| == 0 {
      assert a + b == b;
    } else {
      assert (a + b)[1..] == a[1..] + b;
      FilteredConcat(a[1..], b, keep);
    }
  }

  lemma {:induction false} FilteredExact(names: seq<string>, keep: string -> bool, name: string)
    ensures multiset(Filtered(names, keep))[name] == if keep(name) then multiset(names)[name] else 0
  {
    if |names| != 0 {
      FilteredExact(names[1..], keep, name);
      assert names == [names[0]] + names[1..];
    }
  }

  /** `GetListAsync` with a filter: each page filters its own names, but the scan still stops
      on the unfiltered count. */
  method CollectFilteredAsync(store: ChainStore, keep: string -> bool) returns (list: seq<string>)
    ensures list == Filtered(Reached(store.pages), keep)
  {
    list := [];
    var id := 0;
    var cnt := |Page(store.pages, id)|;
    ReachedFrom(store.pages, 0);
    while cnt > 0
      invariant id <= |store.pages| && cnt == |Page(store.pages, id)|
      invariant list + Filtered(Reached(Rest(store.pages, id)), keep) == Filtered(Reached(store.pages), keep)
      decreases |store.pages| - id
    {
      ghost var later := Reached(Rest(store.pages, id + 1));
      ReachedFrom(store.pages, id);
      FilteredConcat(Page(store.pages, id), later, keep);
      Concat(list, Filtered(Page(store.pages, id), keep), Filtered(later, keep));
      list := list + Filtered(Page(store.pages, id), keep);
      id := id + 1;
      cnt := |Page(store.pages, id)|;
    }
    ReachedFrom(store.pages, id);
  }

  // ---- Sorting ----

  ghost predicate TotalOrder(before: (string, string) -> bool) {
    && (forall a, b :: before(a, b) || before(b, a))
    && (forall a, b, c :: before(a, b) && before(b, c) ==> before(a, c))
  }

  predicate Ordered(names: seq<string>, before: (string, string) -> bool) {
    forall i, j :: 0 <= i < j < |names| ==> before(names[i], names[j])
  }

  function Insert(name: string, names: seq<string>, before: (string, string) -> bool): seq<string> {
    if |names| == 0 || before(name, names[0]) then [name] + names
    else [names[0]] + Insert(name, names[1..], before)
  }

  /** Stands for the library's sort, under the order of the host's culture. */
  function Sort(names: seq<string>, before: (string, string) -> bool): seq<string> {
    if |names| == 0 then [] else Insert(names[0], Sort(names[1..], before), before)
  }

  lemma {:induction false} InsertKeeps(name: string, names: seq<string>, before: (string, string) -> bool)
    ensures multiset(Insert(name, names, before)) == multiset(names) + multiset{name}
  {
    if |names| != 0 && !before(name, names[0]) {
      InsertKeeps(name, names[1..], before);
      assert names == [names[0]] + names[1..];
    }
  }

  lemma OrderedCons(first: string, rest: seq<string>, before: (string, string) -> bool)
    requires Ordered(rest, before) && forall x <- rest :: before(first, x)
    ensures Ordered([first] + rest, before)
  {
  }

  lemma {:induction false} InsertOrders(name: string, names: seq<string>, before: (string, string) -> bool)
    requires TotalOrder(before) && Ordered(names, before)
    ensures Ordered(Insert(name, names, before), before)
  {
    if |names| == 0 {
    } else if before(name, names[0]) {
      forall x | x in names ensures before(name, x) {
        assert before(names[0], x);
      }
      OrderedCons(name, names, before);
    } else {
      var rest := Insert(name, names[1..], before);
      InsertOrders(name, names[1..], before);
      InsertKeeps(name, names[1..], before);
      forall x | x in rest ensures before(names[0], x) {
        assert x in multiset(rest);
        assert x in names[1..] || x == name;
      }
      OrderedCons(names[0], rest, before);
    }
  }

  lemma {:induction false} SortOrders(names: seq<string>, before: (string, string) -> bool)
    requires TotalOrder(before)
    ensures Ordered(Sort(names, before), before) && multiset(Sort(names, before)) == multiset(names)
  {
    if |names| != 0 {
      SortOrders(names[1..], before);
      InsertOrders(names[0], Sort(names[1..], before), before);
      InsertKeeps(names[0], Sort(names[1..], before), before);
      assert names == [names[0]] + names[1..];
    }
  }

  /** Both calls return what they gather as an ordered permutation. */
  method GetListAsync(store: ChainStore, keep: Option<string -> bool>, before: (string, string) -> bool)
    returns (list: seq<string>)
    requires TotalOrder(before)
    ensures Ordered(list, before)
    ensures multiset(list)
         == multiset(if keep.None? then Reached(store.pages) else Filtered(Reached(store.pages), keep.value))
  {
    if keep.None? {
      list := CollectAsync(store);
    } else {
      list := CollectFilteredAsync(store, keep.value);
    }
    SortOrders(list, before);
    list := Sort(list, before);
  }

  // ---- Paging ----

  /** The items of a window that starts on the first page: when the page runs out, the loop
      asks the same page again from the same index. */
  function WindowItems(page: seq<string>, index: nat, pageSize: nat): seq<string>
    requires index < |page| || (index == |page| && pageSize == 0)
    decreases pageSize
  {
    if pageSize <= |page| - index then page[index..index + pageSize]
    else page[index..] + WindowItems(page, index, pageSize - (|page| - index))
  }

  /** The window, where the loop ends: one that starts on the first page, or past the list. */
  method GetWindowAsync(store: ChainStore, index: nat, pageSize: nat) returns (list: seq<string>)
    requires Page(store.pages, 0) != []
    requires WindowEnds(store.pages, index, pageSize)
    ensures index <= |Page(store.pages, 0)| ==> list == WindowItems(Page(store.pages, 0), index, pageSize)
    ensures index > |Flat(store.pages)| ==> list == []
  {
    FlatLength(store.pages);
    list := [];
    var id, numItems := 0, 0;
    var left: nat := pageSize;
    var cnt := |Page(store.pages, id)|;
    ghost var first := Page(store.pages, 0);
    while cnt > 0
      invariant id <= |store.pages| && cnt == |Page(store.pages, id)| && numItems >= 0
      invariant index > |Flat(store.pages)| ==>
                  list == [] && numItems + |Flat(Rest(store.pages, id))| == |Flat(store.pages)|
      invariant index <= |first| ==> id == 0 && (index < cnt || left == 0)
      invariant index <= |first| ==> list + WindowItems(first, index, left) == WindowItems(first, index, pageSize)
      decreases |store.pages| - id, left
    {
      PagesSum(store.pages, id);
      numItems := numItems + cnt;
      if index > numItems {
        id := id + 1;
        cnt := |Page(store.pages, id)|;
      } else {
        // On the first page the index within the page is the index itself.
        var chainList := Page(store.pages, id);
        if left <= cnt - index {
          list := list + chainList[index..index + left];
          return;
        }
        WindowStep(list, first, index, left);
        list := list + chainList[index..];
        left := left - (cnt - index);
      }
    }
  }

  lemma WindowStep(list: seq<string>, page: seq<string>, index: nat, left: nat)
    requires index < |page| && left > |page| - index
    ensures list + WindowItems(page, index, left)
         == list + page[index..] + WindowItems(page, index, left - (|page| - index))
  {
    Concat(list, page[index..], WindowItems(page, index, left - (|page| - index)));
  }

  lemma FlatLength(ps: Pages)
    ensures |Page(ps, 0)| <= |Flat(ps)| && Rest(ps, 0) == ps
  {
  }

  predicate WindowEnds(ps: Pages, index: nat, pageSize: nat) {
    || index < |Page(ps, 0)|
    || (index == |Page(ps, 0)| && pageSize == 0)
    || index > |Flat(ps)|
  }

  /** The control flow of the paging loop, on unbounded integers: whether it has returned after
      at most `fuel` turns. Past the first page it still subtracts the whole index from the
      count of the one page it is on. */
  predicate WindowReturned(ps: Pages, id: nat, numItems: nat, index: nat, left: int, fuel: nat)
    decreases fuel
  {
    var cnt := |Page(ps, id)|;
    && fuel > 0
    && (cnt == 0
        || (if index > numItems + cnt then WindowReturned(ps, id + 1, numItems + cnt, index, left, fuel - 1)
            else left <= cnt - index || WindowReturned(ps, id, numItems + cnt, index, left - (cnt - index), fuel - 1)))
  }

  ghost predicate EverReturns(ps: Pages, index: nat, pageSize: nat) {
    exists fuel: nat :: WindowReturned(ps, 0, 0, index, pageSize, fuel)
  }

  /** On a packed chain a window is ever returned exactly when it starts on the first page, or
      is empty at its end, or starts past the whole list. */
  lemma WindowReturns(ps: Pages, capacity: nat, index: nat, pageSize: nat)
    requires 0 < capacity && Packed(ps, capacity) && Page(ps, 0) != []
    ensures EverReturns(ps, index, pageSize) <==> WindowEnds(ps, index, pageSize)
  {
    FlatLength(ps);
    if index < |Page(ps, 0)| {
      FirstPageReturns(ps, 0, index, pageSize);
    } else if index == |Page(ps, 0)| && pageSize == 0 {
      assert WindowReturned(ps, 0, 0, index, pageSize, 1);
    } else if index > |Flat(ps)| {
      WalkReturns(ps, 0, 0, index, pageSize);
    } else {
      forall fuel: nat ensures !WindowReturned(ps, 0, 0, index, pageSize, fuel) {
        if index == |Page(ps, 0)| {
          Stuck(ps, 0, 0, index, pageSize, fuel);
        } else {
          WalkGetsStuck(ps, capacity, 0, 0, index, pageSize, fuel);
        }
      }
    }
  }

  lemma {:induction false} FirstPageReturns(ps: Pages, numItems: nat, index: nat, left: nat)
    requires index < |Page(ps, 0)|
    ensures WindowReturned(ps, 0, numItems, index, left, left + 1)
    decreases left
  {
    var cnt := |Page(ps, 0)|;
    if left > cnt - index {
      FirstPageReturns(ps, numItems + cnt, index, left - (cnt - index));
      MoreFuel(ps, 0, numItems + cnt, index, left - (cnt - index), left - (cnt - index) + 1, left);
    }
  }

  lemma {:induction false} MoreFuel(ps: Pages, id: nat, numItems: nat, index: nat, left: int, fuel: nat, more: nat)
    requires WindowReturned(ps, id, numItems, index, left, fuel) && fuel <= more
    ensures WindowReturned(ps, id, numItems, index, left, more)
    decreases fuel
  {
    var cnt := |Page(ps, id)|;
    if cnt != 0 {
      if index > numItems + cnt {
        MoreFuel(ps, id + 1, numItems + cnt, index, left, fuel - 1, more - 1);
      } else if left > cnt - index {
        MoreFuel(ps, id, numItems + cnt, index, left - (cnt - index), fuel - 1, more - 1);
      }
    }
  }

  /** Past the list the loop walks to the first empty page. */
  lemma {:induction false} WalkReturns(ps: Pages, id: nat, numItems: nat, index: nat, left: int)
    requires id <= |ps| && numItems + |Flat(Rest(ps, id))| < index
    ensures WindowReturned(ps, id, numItems, index, left, |ps| - id + 1)
    decreases |ps| - id
  {
    if id < |ps| && Page(ps, id) != [] {
      PagesSum(ps, id);
      WalkReturns(ps, id + 1, numItems + |Page(ps, id)|, index, left);
    }
  }

  /** On a page that ends before the index, what is left only grows. */
  lemma {:induction false} Stuck(ps: Pages, id: nat, numItems: nat, index: nat, left: int, fuel: nat)
    requires 0 < |Page(ps, id)| <= index <= numItems + |Page(ps, id)|
    requires left > |Page(ps, id)| - index
    ensures !WindowReturned(ps, id, numItems, index, left, fuel)
    decreases fuel
  {
    if fuel > 0 {
      var cnt := |Page(ps, id)|;
      Stuck(ps, id, numItems + cnt, index, left - (cnt - index), fuel - 1);
    }
  }

  lemma {:induction false} WalkGetsStuck(ps: Pages, capacity: nat, id: nat, numItems: nat, index: nat, left: nat,
                                         fuel: nat)
    requires 0 < capacity && Packed(ps, capacity) && Packed(Rest(ps, id), capacity)
    requires id <= |ps| && |Page(ps, 0)| < index
    requires numItems + |Flat(Rest(ps, id))| == |Flat(ps)| && numItems < index <= |Flat(ps)|
    ensures !WindowReturned(ps, id, numItems, index, left, fuel)
    decreases fuel
  {
    var cnt := |Page(ps, id)|;
    PackedRest(ps, id, capacity);
    PagesSum(ps, id);
    PackedPages(ps, id, capacity);
    PackedPages(ps, 0, capacity);
    if fuel > 0 && cnt > 0 {
      if index > numItems + cnt {
        WalkGetsStuck(ps, capacity, id + 1, numItems + cnt, index, left, fuel - 1);
      } else {
        Stuck(ps, id, numItems, index, left, fuel);
      }
    }
  }

  function Window(names: seq<string>, index: nat, pageSize: nat): seq<string>
    requires index <= |names|
  {
    if index + pageSize <= |names| then names[index..index + pageSize] else names[index..]
  }

  lemma {:induction false} WindowItemsLength(page: seq<string>, index: nat, pageSize: nat)
    requires index < |page| || (index == |page| && pageSize == 0)
    ensures |WindowItems(page, index, pageSize)| == pageSize
    decreases pageSize
  {
    if pageSize > |page| - index {
      WindowItemsLength(page, index, pageSize - (|page| - index));
    }
  }

  /** The place of the j-th item when n items repeat: the remainder by repeated subtraction. */
  function Repeating(j: nat, n: nat): (k: nat)
    requires 0 < n
    ensures k < n && k <= j && (j < n ==> k == j)
  {
    if j < n then j else Repeating(j - n, n)
  }

  /** Past the end of the page a window starts over at its own index, again and again. */
  lemma {:induction false} WindowRepeats(page: seq<string>, index: nat, pageSize: nat, j: nat)
    requires index < |page| && j < pageSize
    ensures |WindowItems(page, index, pageSize)| == pageSize
    ensures WindowItems(page, index, pageSize)[j] == page[index + Repeating(j, |page| - index)]
    decreases pageSize
  {
    WindowItemsLength(page, index, pageSize);
    if j >= |page| - index {
      WindowRepeats(page, index, pageSize - (|page| - index), j - (|page| - index));
    }
  }

  /** A window is the right slice of the list exactly when it stays on the first page. */
  lemma WindowIsSlice(ps: Pages, index: nat, pageSize: nat)
    requires |ps| != 0 && Distinct(Flat(ps))
    requires index < |ps[0]| || (index == |ps[0]| && pageSize == 0)
    ensures WindowItems(ps[0], index, pageSize) == Window(Flat(ps), index, pageSize)
            <==> index + pageSize <= |ps[0]|
  {
    var page, flat := ps[0], Flat(ps);
    var left := |page| - index;
    WindowItemsLength(page, index, pageSize);
    if pageSize > left && index + pageSize <= |flat| {
      var items := WindowItems(page, index, pageSize);
      WindowItemsLength(page, index, pageSize - left);
      assert items[left] == page[index] == flat[index];
      assert Window(flat, index, pageSize)[left] == flat[|page|];
    }
  }

  /** The pages a client collects by following continuation tokens: each call starts at the
      index the previous token returned. */
  function Followed(page: seq<string>, index: nat, sizes: seq<nat>): seq<string>
    requires index + Sum(sizes) <= |page|
    decreases |sizes|
  {
    if |sizes| == 0 then []
    else
      var items := WindowItems(page, index, sizes[0]);
      WindowItemsLength(page, index, sizes[0]);
      items + Followed(page, index + |items|, sizes[1..])
  }

  function Sum(sizes: seq<nat>): nat {
    if |sizes| == 0 then 0 else sizes[0] + Sum(sizes[1..])
  }

  lemma {:induction false} FollowedIsSlice(page: seq<string>, index: nat, sizes: seq<nat>)
    requires index + Sum(sizes) <= |page|
    ensures Followed(page, index, sizes) == page[index..index + Sum(sizes)]
    decreases |sizes|
  {
    if |sizes| != 0 {
      var next := index + sizes[0];
      assert WindowItems(page, index, sizes[0]) == page[index..next];
      FollowedIsSlice(page, next, sizes[1..]);
      SliceJoin(page, index, next, index + Sum(sizes));
    }
  }

  /** Tokens cover the list without gaps, as long as they stay on the first page. */
  lemma TokensCover(ps: Pages, index: nat, sizes: seq<nat>)
    requires |ps| != 0 && index + Sum(sizes) <= |ps[0]|
    ensures index + Sum(sizes) <= |Flat(ps)|
    ensures Followed(ps[0], index, sizes) == Flat(ps)[index..index + Sum(sizes)]
  {
    FollowedIsSlice(ps[0], index, sizes);
    PrefixSlice(ps[0], Flat(ps[1..]), index, index + Sum(sizes));
  }
}
