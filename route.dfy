/** The route editor behind the photo list: the ordered list of photo waypoints
    (`photoMetadata`) and the rendered list items, each tagged with the list position
    it had when the list was last drawn (`dataset.index`). Photos are appended after a
    capture or an upload, the list is reset by a new upload, one photo is removed by its
    remove button, and a drag moves one rendered item, after which the list is rebuilt
    by reading the items' positions back in their new order. */
module Route {
  import opened Common

  /** A compass bearing in whole degrees, or 'N/A' for an upload without a direction tag. */
  datatype Direction = Degrees(deg: int) | NotAvailable

  /** One geotagged photo waypoint; the thumbnail is its data URL. */
  datatype Photo = Photo(fileName: string, lat: real, lon: real, direction: Direction, thumbnail: string)

  // ---------------------------------------------------------------------------
  // Removing a photo: Array.prototype.splice(index, 1)
  // ---------------------------------------------------------------------------

  /** The position splice(index, 1) starts at on a list of length len: a negative
      index counts back from the end, and the result is clamped into [0, len]. */
  function SpliceStart(index: int, len: nat): (k: nat)
    ensures k <= len
    ensures 0 <= index <= len ==> k == index
    ensures index < 0 && len + index >= 0 ==> k == len + index
    ensures len + index < 0 ==> k == 0
  {
    if index < 0 then (if len + index < 0 then 0 else len + index)
    else if index > len then len
    else index
  }

  /** The sequence without position j. */
  function DropAt<T>(s: seq<T>, j: nat): (r: seq<T>)
    requires j < |s|
    ensures |r| == |s| - 1
  {
    s[..j] + s[j + 1..]
  }

  /** The list after splice(index, 1): the element at the start position is gone, if there is one. */
  function SpliceOne<T>(s: seq<T>, index: int): (r: seq<T>)
    ensures |r| == if SpliceStart(index, |s|) < |s| then |s| - 1 else |s|
    ensures multiset(r) <= multiset(s)
  {
    var k := SpliceStart(index, |s|);
    if k < |s| then MultisetDropAt(s, k); DropAt(s, k) else s
  }

  /** Removing a position the list has takes out exactly that element: one shorter,
      the elements before it in place, the ones after it shifted down by one, and
      nothing else lost. */
  lemma SpliceOneInRange<T>(s: seq<T>, i: int)
    requires 0 <= i < |s|
    ensures |SpliceOne(s, i)| == |s| - 1
    ensures forall j :: 0 <= j < i ==> SpliceOne(s, i)[j] == s[j]
    ensures forall j :: i <= j < |s| - 1 ==> SpliceOne(s, i)[j] == s[j + 1]
    ensures multiset(SpliceOne(s, i)) + multiset{s[i]} == multiset(s)
  {
    assert s == s[..i] + [s[i]] + s[i + 1..];
  }

  /** A position at or past the end removes nothing. */
  lemma SpliceOnePastEnd<T>(s: seq<T>, i: int)
    requires i >= |s|
    ensures SpliceOne(s, i) == s
  {
  }

  // ---------------------------------------------------------------------------
  // Rendered order and reordering
  // ---------------------------------------------------------------------------

  /** The dataset.index values of a freshly drawn list, in DOM order: 0, 1, ..., n-1. */
  function Iota(n: nat): (r: seq<nat>)
    ensures |r| == n
    ensures forall i :: 0 <= i < n ==> r[i] == i
  {
    seq(n, i => i)
  }

  /** The items' indices are each list position exactly once. */
  ghost predicate IsIndexPermutation(order: seq<nat>, n: nat) {
    && |order| == n
    && (forall k :: 0 <= k < |order| ==> order[k] < n)
    && multiset(order) == multiset(Iota(n))
  }

  /** The list read back through a sequence of indices: entry k is s[order[k]]. */
  function Pick<T>(s: seq<T>, order: seq<nat>): (r: seq<T>)
    requires forall k :: 0 <= k < |order| ==> order[k] < |s|
    ensures |r| == |order|
    ensures forall k :: 0 <= k < |order| ==> r[k] == s[order[k]]
  {
    seq(|order|, k requires 0 <= k < |order| => s[order[k]])
  }

  /** Dropping position j takes exactly one copy of s[j] out of the multiset. */
  lemma MultisetDropAt<T>(s: seq<T>, j: nat)
    requires j < |s|
    ensures multiset(DropAt(s, j)) == multiset(s) - multiset{s[j]}
  {
    assert s == s[..j] + [s[j]] + s[j + 1..];
  }

  /** Reading through index sequence o with its position j removed: one entry s[o[j]] fewer. */
  lemma PickDropAt<T>(s: seq<T>, o: seq<nat>, j: nat)
    requires forall k :: 0 <= k < |o| ==> o[k] < |s|
    requires j < |o|
    ensures forall k :: 0 <= k < |o| - 1 ==> DropAt(o, j)[k] < |s|
    ensures multiset(Pick(s, o)) == multiset{s[o[j]]} + multiset(Pick(s, DropAt(o, j)))
  {
    var p := Pick(s, o);
    var q := Pick(s, DropAt(o, j));
    assert q == p[..j] + p[j + 1..];
    MultisetDropAt(p, j);
  }

  /** Two index sequences with the same multiset read the same multiset of entries. */
  lemma {:induction false} PickSameMultiset<T>(s: seq<T>, o1: seq<nat>, o2: seq<nat>)
    requires forall k :: 0 <= k < |o1| ==> o1[k] < |s|
    requires forall k :: 0 <= k < |o2| ==> o2[k] < |s|
    requires multiset(o1) == multiset(o2)
    ensures multiset(Pick(s, o1)) == multiset(Pick(s, o2))
    decreases |o1|
  {
    if o1 == [] {
      assert |multiset(o2)| == 0;
      assert o2 == [];
    } else {
      var x := o1[0];
      assert x in multiset(o1);
      assert x in o2;
      var j :| 0 <= j < |o2| && o2[j] == x;
      var r1, r2 := DropAt(o1, 0), DropAt(o2, j);
      assert multiset(r1) == multiset(r2) by {
        MultisetDropAt(o1, 0);
        MultisetDropAt(o2, j);
      }
      assert (forall k :: 0 <= k < |r1| ==> r1[k] < |s|)
             && multiset(Pick(s, o1)) == multiset{s[x]} + multiset(Pick(s, r1)) by {
        PickDropAt(s, o1, 0);
      }
      assert (forall k :: 0 <= k < |r2| ==> r2[k] < |s|)
             && multiset(Pick(s, o2)) == multiset{s[x]} + multiset(Pick(s, r2)) by {
        PickDropAt(s, o2, j);
      }
      PickSameMultiset(s, r1, r2);
    }
  }

  /** Reading a list back through a permutation of its positions loses and
      duplicates nothing: the result has the same length and the same multiset. */
  lemma PickPermutation<T>(s: seq<T>, order: seq<nat>)
    requires IsIndexPermutation(order, |s|)
    ensures |Pick(s, order)| == |s|
    ensures multiset(Pick(s, order)) == multiset(s)
  {
    PickSameMultiset(s, order, Iota(|s|));
    assert Pick(s, Iota(|s|)) == s;
  }

  // ---------------------------------------------------------------------------
  // One dragover step, on the rendered items' indices
  // ---------------------------------------------------------------------------

  /** The sequence without the first occurrence of x. */
  function RemoveFirst(s: seq<nat>, x: nat): (r: seq<nat>)
  {
    if s == [] then []
    else if s[0] == x then s[1..]
    else [s[0]] + RemoveFirst(s[1..], x)
  }

  /** x placed just before the first occurrence of t, or at the end when t does not occur. */
  function InsertBefore(s: seq<nat>, x: nat, t: nat): (r: seq<nat>)
  {
    if s == [] then [x]
    else if s[0] == t then [x] + s
    else [s[0]] + InsertBefore(s[1..], x, t)
  }

  lemma {:induction false} RemoveFirstMultiset(s: seq<nat>, x: nat)
    ensures multiset(RemoveFirst(s, x)) == multiset(s) - multiset{x}
  {
    if s != [] {
      assert s == [s[0]] + s[1..];
      if s[0] != x {
        RemoveFirstMultiset(s[1..], x);
      }
    }
  }

  lemma {:induction false} InsertBeforeMultiset(s: seq<nat>, x: nat, t: nat)
    ensures multiset(InsertBefore(s, x, t)) == multiset(s) + multiset{x}
  {
    if s != [] {
      assert s == [s[0]] + s[1..];
      if s[0] != t {
        InsertBeforeMultiset(s[1..], x, t);
      }
    }
  }

  /** When t occurs, x lands immediately in front of it. */
  lemma {:induction false} InsertBeforePlaces(s: seq<nat>, x: nat, t: nat)
    requires t in s
    ensures exists k :: 0 <= k < |InsertBefore(s, x, t)| - 1
                        && InsertBefore(s, x, t)[k] == x && InsertBefore(s, x, t)[k + 1] == t
  {
    var r := InsertBefore(s, x, t);
    if s[0] == t {
      assert r[0] == x && r[1] == t;
    } else {
      InsertBeforePlaces(s[1..], x, t);
      var r' := InsertBefore(s[1..], x, t);
      var k :| 0 <= k < |r'| - 1 && r'[k] == x && r'[k + 1] == t;
      assert r[k + 1] == x && r[k + 2] == t;
    }
  }

  /** One dragover event. With no item being dragged nothing moves; with no item
      below the pointer the dragged item is appended (appendChild); otherwise it is
      inserted before that item (insertBefore). Inserting an item before itself leaves
      the list as it is, and a reference that is not one of the items (which the
      handler never passes) changes nothing either, as the DOM refuses it.
      A drag step only moves items: the multiset of indices is the same afterwards. */
  function DragOver(order: seq<nat>, dragged: Option<nat>, after: Option<nat>): (r: seq<nat>)
    ensures multiset(r) == multiset(order)
  {
    if dragged.None? || dragged.value !in order then order
    else
      var d := dragged.value;
      RemoveFirstMultiset(order, d);
      assert multiset(order) - multiset{d} + multiset{d} == multiset(order);
      match after
      case None => RemoveFirst(order, d) + [d]
      case Some(t) =>
        if t == d || t !in order then order
        else
          InsertBeforeMultiset(RemoveFirst(order, d), d, t);
          InsertBefore(RemoveFirst(order, d), d, t)
  }

  /** A drag step keeps the rendered indices a permutation of the list positions. */
  lemma DragOverPermutes(order: seq<nat>, n: nat, dragged: Option<nat>, after: Option<nat>)
    requires IsIndexPermutation(order, n)
    ensures IsIndexPermutation(DragOver(order, dragged, after), n)
  {
    var r := DragOver(order, dragged, after);
    assert |r| == |multiset(r)| == |multiset(order)| == n;
    forall k | 0 <= k < |r| ensures r[k] < n {
      assert r[k] in multiset(order);
    }
  }

  /** Where a drag step puts the dragged item: last when nothing is below the
      pointer, immediately before the item below the pointer otherwise. */
  lemma DragOverPlaces(order: seq<nat>, d: nat, after: Option<nat>)
    requires d in order
    ensures |DragOver(order, Some(d), after)| == |order|
    ensures after.None? ==> DragOver(order, Some(d), after)[|order| - 1] == d
    ensures after.Some? && after.value != d && after.value in order ==>
      exists k :: 0 <= k < |DragOver(order, Some(d), after)| - 1
                  && DragOver(order, Some(d), after)[k] == d
                  && DragOver(order, Some(d), after)[k + 1] == after.value
  {
    assert |DragOver(order, Some(d), after)| == |multiset(order)| == |order|;
    if after.Some? && after.value != d && after.value in order {
      var t := after.value;
      RemoveFirstMultiset(order, d);
      assert t in multiset(RemoveFirst(order, d));
      InsertBeforePlaces(RemoveFirst(order, d), d, t);
    }
  }

  /** Each position of a freshly drawn list occurs in it once. */
  lemma {:induction false} IotaOnce(n: nat, d: nat)
    ensures multiset(Iota(n))[d] == if d < n then 1 else 0
  {
    if n > 0 {
      assert Iota(n) == Iota(n - 1) + [n - 1];
      IotaOnce(n - 1, d);
    }
  }

  lemma {:induction false} RemoveFirstAppend(s: seq<nat>, x: nat)
    requires x !in s
    ensures RemoveFirst(s + [x], x) == s
  {
    if s != [] {
      assert (s + [x])[1..] == s[1..] + [x];
      RemoveFirstAppend(s[1..], x);
    }
  }

  lemma {:induction false} RemoveFirstInsertBefore(s: seq<nat>, x: nat, t: nat)
    requires x !in s
    ensures RemoveFirst(InsertBefore(s, x, t), x) == s
  {
    if s != [] && s[0] != t {
      RemoveFirstInsertBefore(s[1..], x, t);
    }
  }

  /** A drag step moves only the dragged item: with it taken out, the other items
      are in the same relative order as before. */
  lemma DragOverKeepsOthers(order: seq<nat>, n: nat, d: nat, after: Option<nat>)
    requires IsIndexPermutation(order, n) && d in order
    ensures RemoveFirst(DragOver(order, Some(d), after), d) == RemoveFirst(order, d)
  {
    var rest: seq<nat> := RemoveFirst(order, d);
    assert d !in rest by {
      RemoveFirstMultiset(order, d);
      IotaOnce(n, d);
      assert multiset(RemoveFirst(order, d))[d] == 0;
    }
    match after
    case None =>
      RemoveFirstAppend(rest, d);
    case Some(t) =>
      if t != d && t in order {
        RemoveFirstInsertBefore(rest, d, t);
      }
  }

  datatype DragStep = DragStep(dragged: Option<nat>, after: Option<nat>)

  /** The rendered order after a series of dragover events. */
  function ApplyDrags(order: seq<nat>, steps: seq<DragStep>): (r: seq<nat>)
    decreases |steps|
  {
    if steps == [] then order
    else ApplyDrags(DragOver(order, steps[0].dragged, steps[0].after), steps[1..])
  }

  /** However many drag steps follow a render, the indices read back at dragend are
      a permutation of the list positions, so the rebuilt list neither loses nor
      duplicates a photo. */
  lemma {:induction false} DragsThenReorderPermutes(photos: seq<Photo>, order: seq<nat>, steps: seq<DragStep>)
    requires IsIndexPermutation(order, |photos|)
    ensures IsIndexPermutation(ApplyDrags(order, steps), |photos|)
    ensures multiset(Pick(photos, ApplyDrags(order, steps))) == multiset(photos)
    decreases |steps|
  {
    if steps == [] {
      PickPermutation(photos, order);
    } else {
      DragOverPermutes(order, |photos|, steps[0].dragged, steps[0].after);
      DragsThenReorderPermutes(photos, DragOver(order, steps[0].dragged, steps[0].after), steps[1..]);
    }
  }

  // ---------------------------------------------------------------------------
  // Uploads
  // ---------------------------------------------------------------------------

  /** The photos an upload adds, in file order: the files whose metadata had a GPS
      position; the others only raise an alert. */
  function Located(results: seq<Option<Photo>>): (r: seq<Photo>)
    ensures |r| <= |results|
    ensures forall p :: p in r ==> Some(p) in results
    decreases |results|
  {
    if results == [] then []
    else
      Located(results[..|results| - 1])
      + (match results[|results| - 1] case Some(p) => [p] case None => [])
  }

  /** An upload keeps exactly the photos that were found, and never more than there were files. */
  lemma {:induction false} LocatedKeepsFound(results: seq<Option<Photo>>)
    ensures |Located(results)| <= |results|
    ensures forall p :: p in Located(results) <==> Some(p) in results
    decreases |results|
  {
    if results != [] {
      var init := results[..|results| - 1];
      LocatedKeepsFound(init);
      assert results == init + [results[|results| - 1]];
    }
  }

  /** Uploading files one after another adds their photos in file order: the photos
      of a batch are those of its first part followed by those of the rest. */
  lemma {:induction false} LocatedAppend(a: seq<Option<Photo>>, b: seq<Option<Photo>>)
    ensures Located(a + b) == Located(a) + Located(b)
    decreases |b|
  {
    if b == [] {
      assert a + b == a;
    } else {
      var init, last := b[..|b| - 1], b[|b| - 1];
      var tail := match last case Some(p) => [p] case None => [];
      LocatedAppend(a, init);
      assert (a + b)[..|a + b| - 1] == a + init;
      assert (a + b)[|a + b| - 1] == last;
      assert Located(a + b) == Located(a + init) + tail;
      assert Located(b) == Located(init) + tail;
    }
  }

  /** A single file adds its photo when it had a position, and nothing otherwise. */
  lemma LocatedOne(r: Option<Photo>)
    ensures Located([r]) == if r.Some? then [r.value] else []
  {
    assert [r][..0] == [];
  }

  // ---------------------------------------------------------------------------
  // The editor state
  // ---------------------------------------------------------------------------

  class RouteEditor {
    /** The waypoint list, in route order. */
    var photos: seq<Photo>
    /** The dataset.index of each rendered list item, in DOM order. */
    var domOrder: seq<nat>

    /** The rendered items carry every list position exactly once. */
    ghost predicate Valid()
      reads this
    {
      IsIndexPermutation(domOrder, |photos|)
    }

    constructor ()
      ensures Valid() && photos == [] && domOrder == []
    {
      photos := [];
      domOrder := [];
    }

    /** Redraw the list: item k gets dataset.index k. */
    method DisplayPhotoList()
      modifies this
      ensures photos == old(photos) && domOrder == Iota(|photos|)
      ensures Valid()
    {
      domOrder := Iota(|photos|);
    }

    /** A capture appends the new photo, facing the current compass heading, and redraws. */
    method CapturePhoto(fileName: string, lat: real, lon: real, heading: int, thumbnail: string)
      modifies this
      ensures photos == old(photos) + [Photo(fileName, lat, lon, Degrees(heading), thumbnail)]
      ensures domOrder == Iota(|photos|) && Valid()
    {
      photos := photos + [Photo(fileName, lat, lon, Degrees(heading), thumbnail)];
      DisplayPhotoList();
    }

    /** Append, file by file, every upload whose metadata yielded a photo, then redraw. */
    method ProcessUploadedFiles(results: seq<Option<Photo>>)
      modifies this
      ensures photos == old(photos) + Located(results)
      ensures domOrder == Iota(|photos|) && Valid()
    {
      for i := 0 to |results|
        invariant photos == old(photos) + Located(results[..i])
      {
        assert results[..i + 1][..i] == results[..i];
        match results[i]
        case Some(p) => photos := photos + [p];
        case None =>
      }
      assert results[..|results|] == results;
      DisplayPhotoList();
    }

    /** A non-empty upload replaces the route by the uploaded photos; choosing no files changes nothing. */
    method HandleFileUpload(results: seq<Option<Photo>>)
      requires Valid()
      modifies this
      ensures Valid()
      ensures |results| > 0 ==> photos == Located(results) && domOrder == Iota(|photos|)
      ensures |results| == 0 ==> photos == old(photos) && domOrder == old(domOrder)
    {
      if |results| > 0 {
        photos := [];
        ProcessUploadedFiles(results);
      }
    }

    /** The remove button of a list item: splice one photo out and redraw. */
    method RemovePhoto(index: int)
      modifies this
      ensures photos == SpliceOne(old(photos), index)
      ensures domOrder == Iota(|photos|) && Valid()
    {
      photos := SpliceOne(photos, index);
      DisplayPhotoList();
    }

    /** One dragover event moves one rendered item; the list itself is untouched. */
    method DragOverStep(dragged: Option<nat>, after: Option<nat>)
      requires Valid()
      modifies this
      ensures photos == old(photos)
      ensures domOrder == DragOver(old(domOrder), dragged, after)
      ensures Valid()
    {
      DragOverPermutes(domOrder, |photos|, dragged, after);
      domOrder := DragOver(domOrder, dragged, after);
    }

    /** dragend: rebuild the list by reading each rendered item's index in DOM order,
        then redraw. The result is a permutation of the old list. */
    method UpdatePhotoOrder()
      requires Valid()
      modifies this
      ensures photos == Pick(old(photos), old(domOrder))
      ensures |photos| == |old(photos)| && multiset(photos) == multiset(old(photos))
      ensures domOrder == Iota(|photos|) && Valid()
    {
      var newOrdered: seq<Photo> := [];
      for k := 0 to |domOrder|
        invariant |newOrdered| == k
        invariant forall j :: 0 <= j < k ==> newOrdered[j] == photos[domOrder[j]]
      {
        newOrdered := newOrdered + [photos[domOrder[k]]];
      }
      assert newOrdered == Pick(photos, domOrder);
      PickPermutation(photos, domOrder);
      photos := newOrdered;
      DisplayPhotoList();
    }
  }
}
