/** Choosing a size in a cursor file and listing its images (cursor/xcursor.c). */
module Xcursor {

  const IMAGE_TYPE: nat := 0xfffd_0002

  datatype Toc = Toc(kind: nat, subtype: nat)

  function Dist(a: nat, b: nat): nat { if a > b then a - b else b - a }

  lemma DistMeaning(a: nat, b: nat)
    ensures a <= b ==> a + Dist(a, b) == b
    ensures b <= a ==> b + Dist(a, b) == a
  {
  }

  predicate IsImage(t: Toc) { t.kind == IMAGE_TYPE }

  /** The positions of the images of a size, in table order. */
  function ImagesOf(tocs: seq<Toc>, size: nat): seq<nat> {
    if tocs == [] then []
    else
      var last := |tocs| - 1;
      ImagesOf(tocs[..last], size) + (if IsImage(tocs[last]) && tocs[last].subtype == size then [last] else [])
  }

  lemma {:induction false} ImagesOfPrefix(tocs: seq<Toc>, size: nat, n: nat)
    requires n <= |tocs|
    ensures ImagesOf(tocs[..n], size) <= ImagesOf(tocs, size)
    ensures forall k :: |ImagesOf(tocs[..n], size)| <= k < |ImagesOf(tocs, size)| ==> ImagesOf(tocs, size)[k] >= n
    ensures forall k :: 0 <= k < |ImagesOf(tocs[..n], size)| ==> ImagesOf(tocs[..n], size)[k] < n
    decreases |tocs|
  {
    if n < |tocs| {
      var last := |tocs| - 1;
      assert tocs[..last][..n] == tocs[..n];
      ImagesOfPrefix(tocs[..last], size, n);
    } else {
      assert tocs[..n] == tocs;
      if tocs != [] { ImagesOfPrefix(tocs[..|tocs| - 1], size, |tocs| - 1); assert tocs[..|tocs| - 1][..|tocs| - 1] == tocs[..|tocs| - 1]; }
    }
  }

  /** What the list means: it holds just the images of that size, in increasing order. */
  lemma {:induction false} ImagesOfMeaning(tocs: seq<Toc>, size: nat)
    ensures forall i :: i in ImagesOf(tocs, size) <==> 0 <= i < |tocs| && IsImage(tocs[i]) && tocs[i].subtype == size
    ensures forall j, k :: 0 <= j < k < |ImagesOf(tocs, size)| ==> ImagesOf(tocs, size)[j] < ImagesOf(tocs, size)[k]
  {
    if tocs != [] {
      var last := |tocs| - 1;
      ImagesOfMeaning(tocs[..last], size);
      var front := ImagesOf(tocs[..last], size);
      assert forall k :: 0 <= k < |front| ==> front[k] in front;
    }
  }

  lemma {:induction false} AbsentSize(tocs: seq<Toc>, size: nat)
    requires forall i :: 0 <= i < |tocs| && IsImage(tocs[i]) ==> tocs[i].subtype != size
    ensures ImagesOf(tocs, size) == []
  {
    if tocs != [] { AbsentSize(tocs[..|tocs| - 1], size); }
  }

  lemma NextImage(tocs: seq<Toc>, n: nat, size: nat)
    requires n < |tocs|
    ensures ImagesOf(tocs[..n + 1], size) ==
      ImagesOf(tocs[..n], size) + (if IsImage(tocs[n]) && tocs[n].subtype == size then [n] else [])
  {
    assert tocs[..n + 1][..n] == tocs[..n];
  }

  /** The size of the first image at the least distance, and no image that has it when there is
      no image at all. */
  ghost predicate IsFirstMinimiser(tocs: seq<Toc>, size: nat, best: nat) {
    exists i :: 0 <= i < |tocs| && IsImage(tocs[i]) && tocs[i].subtype == best
      && (forall j :: 0 <= j < |tocs| && IsImage(tocs[j]) ==> Dist(best, size) <= Dist(tocs[j].subtype, size))
      && (forall j :: 0 <= j < i && IsImage(tocs[j]) ==> Dist(best, size) < Dist(tocs[j].subtype, size))
  }

  predicate NoImages(tocs: seq<Toc>) { forall i :: 0 <= i < |tocs| ==> !IsImage(tocs[i]) }

  /** Image `i` is the first at the least distance. */
  ghost predicate FirstNearest(tocs: seq<Toc>, size: nat, i: nat) {
    && i < |tocs| && IsImage(tocs[i])
    && (forall j :: 0 <= j < |tocs| && IsImage(tocs[j]) ==> Dist(tocs[i].subtype, size) <= Dist(tocs[j].subtype, size))
    && (forall j :: 0 <= j < i && IsImage(tocs[j]) ==> Dist(tocs[i].subtype, size) < Dist(tocs[j].subtype, size))
  }

  /** There is only one such size. */
  lemma OneFirstMinimiser(tocs: seq<Toc>, size: nat, a: nat, b: nat)
    requires IsFirstMinimiser(tocs, size, a) && IsFirstMinimiser(tocs, size, b)
    ensures a == b
  {
  }

  // ----- the search -----

  datatype Found = Found(size: nat, count: nat)

  /** What one entry does to the search, in which size 0 doubles as "none yet". */
  function Next(found: Found, t: Toc, size: nat): Found {
    if !IsImage(t) then found
    else if found.size == 0 || Dist(t.subtype, size) < Dist(found.size, size) then Found(t.subtype, 1)
    else if t.subtype == found.size then found.(count := found.count + 1)
    else found
  }

  function Scan(tocs: seq<Toc>, size: nat): Found {
    if tocs == [] then Found(0, 0) else Next(Scan(tocs[..|tocs| - 1], size), tocs[|tocs| - 1], size)
  }

  predicate HasSize(tocs: seq<Toc>, size: nat) { exists i :: 0 <= i < |tocs| && IsImage(tocs[i]) && tocs[i].subtype == size }

  /** The other size at the distance of size 0. */
  predicate HasMirror(tocs: seq<Toc>, size: nat) { size > 0 && HasSize(tocs, 2 * size) }

  predicate LastZero(tocs: seq<Toc>, z: nat) {
    && z < |tocs| && IsImage(tocs[z]) && tocs[z].subtype == 0
    && forall j :: z < j < |tocs| && IsImage(tocs[j]) ==> tocs[j].subtype != 0
  }

  /** What is found if an image of size 0 is nearest: all images at its distance on the other side
      if there are any, and else what a search of the table after the last size 0 finds. */
  ghost predicate FoundPastZero(tocs: seq<Toc>, size: nat, found: Found) {
    if HasMirror(tocs, size) then found == Found(2 * size, |ImagesOf(tocs, 2 * size)|)
    else exists z ::
      && LastZero(tocs, z)
      && found.size == Scan(tocs[z + 1..], size).size
      && (found.size != 0 ==> found == Scan(tocs[z + 1..], size))
  }

  ghost predicate FoundNearest(tocs: seq<Toc>, size: nat, found: Found, i: nat) {
    && FirstNearest(tocs, size, i)
    && (if tocs[i].subtype == 0 then FoundPastZero(tocs, size, found)
        else found == Found(tocs[i].subtype, |ImagesOf(tocs, tocs[i].subtype)|))
  }

  lemma ImagesOfMore(front: seq<Toc>, t: Toc, size: nat)
    ensures ImagesOf(front + [t], size) == ImagesOf(front, size) + (if IsImage(t) && t.subtype == size then [|front|] else [])
  {
    assert (front + [t])[..|front|] == front;
  }

  lemma ScanMore(front: seq<Toc>, t: Toc, size: nat)
    ensures Scan(front + [t], size) == Next(Scan(front, size), t, size)
  {
    assert (front + [t])[..|front|] == front;
  }

  /** A size found is one of an image. */
  lemma {:induction false} ScanFindsImage(tocs: seq<Toc>, size: nat)
    ensures Scan(tocs, size).size != 0 ==> HasSize(tocs, Scan(tocs, size).size)
  {
    if tocs != [] {
      var last := |tocs| - 1;
      ScanFindsImage(tocs[..last], size);
      if HasSize(tocs[..last], Scan(tocs, size).size) {
        var i :| 0 <= i < last && IsImage(tocs[..last][i]) && tocs[..last][i].subtype == Scan(tocs, size).size;
        assert tocs[i] == tocs[..last][i];
      }
    }
  }

  /** The nearest stays, or the next entry is strictly nearer and the first of its size. */
  lemma NearestNext(front: seq<Toc>, t: Toc, size: nat, i: nat)
    requires FirstNearest(front, size, i)
    ensures if IsImage(t) && Dist(t.subtype, size) < Dist(front[i].subtype, size)
            then FirstNearest(front + [t], size, |front|) && ImagesOf(front, t.subtype) == []
                 && (t.subtype == 0 ==> !HasMirror(front, size))
            else FirstNearest(front + [t], size, i)
  {
    if IsImage(t) && Dist(t.subtype, size) < Dist(front[i].subtype, size) { AbsentSize(front, t.subtype); }
  }

  /** Having found 0 as the nearest, the search starts afresh. */
  lemma ZeroTakesOver(front: seq<Toc>, t: Toc, size: nat, found: Found)
    requires IsImage(t) && t.subtype == 0 && found.size == 0 && !HasMirror(front, size)
    ensures FoundPastZero(front + [t], size, found)
  {
    var tocs := front + [t];
    assert LastZero(tocs, |front|) && tocs[|front| + 1..] == [];
    NoMirrorMore(front, t, size);
  }

  lemma NoMirrorMore(front: seq<Toc>, t: Toc, size: nat)
    ensures HasMirror(front + [t], size) <==> HasMirror(front, size) || (size > 0 && IsImage(t) && t.subtype == 2 * size)
  {
    var tocs := front + [t];
    assert tocs[|front|] == t && forall i :: 0 <= i < |front| ==> tocs[i] == front[i];
  }

  /** With 0 still the nearest, the next entry changes what is found as stated. */
  lemma PastZeroNext(front: seq<Toc>, t: Toc, size: nat, found: Found, i: nat)
    requires FirstNearest(front, size, i) && front[i].subtype == 0 && FoundPastZero(front, size, found)
    requires IsImage(t) ==> Dist(t.subtype, size) >= size
    ensures FoundPastZero(front + [t], size, Next(found, t, size))
  {
    NoMirrorMore(front, t, size);
    if HasMirror(front, size) {
      hide HasMirror, FirstNearest, ImagesOf;
      ImagesOfMore(front, t, 2 * size);
    } else {
      var z :| LastZero(front, z) && found.size == Scan(front[z + 1..], size).size
        && (found.size != 0 ==> found == Scan(front[z + 1..], size));
      NotAtMirror(front, size, found, z, i);
      hide FirstNearest, LastZero;
      PastZeroOn(front, t, size, found, z);
    }
  }

  lemma PastZeroOn(front: seq<Toc>, t: Toc, size: nat, found: Found, z: nat)
    requires LastZero(front, z) && found.size == Scan(front[z + 1..], size).size
    requires found.size != 0 ==> found == Scan(front[z + 1..], size) && Dist(found.size, size) > size
    requires !HasMirror(front, size) && (IsImage(t) ==> Dist(t.subtype, size) >= size)
    ensures FoundPastZero(front + [t], size, Next(found, t, size))
  {
    NoMirrorMore(front, t, size);
    if IsImage(t) && t.subtype == 0 {
      ZeroTakesOver(front, t, size, Next(found, t, size));
    } else if HasMirror(front + [t], size) {
      AbsentSize(front, 2 * size);
      ImagesOfMore(front, t, 2 * size);
      hide ImagesOf;
    } else {
      SearchedOn(front, t, size, found, z);
      hide HasMirror, LastZero;
    }
  }

  /** So whatever was found is farther than 0 is, and gives way to it. */
  lemma NotAtMirror(front: seq<Toc>, size: nat, found: Found, z: nat, i: nat)
    requires FirstNearest(front, size, i) && front[i].subtype == 0 && !HasMirror(front, size)
    requires z < |front| && found.size == Scan(front[z + 1..], size).size
    ensures found.size != 0 ==> Dist(found.size, size) > size
  {
    var rest := front[z + 1..];
    ScanFindsImage(rest, size);
    if found.size != 0 {
      var k :| 0 <= k < |rest| && IsImage(rest[k]) && rest[k].subtype == found.size;
      assert front[z + 1 + k] == rest[k];
    }
  }

  lemma SearchedOn(front: seq<Toc>, t: Toc, size: nat, found: Found, z: nat)
    requires LastZero(front, z) && !(IsImage(t) && t.subtype == 0)
    requires found.size == Scan(front[z + 1..], size).size
    requires found.size != 0 ==> found == Scan(front[z + 1..], size)
    ensures var tocs, next := front + [t], Next(found, t, size);
      && LastZero(tocs, z) && next.size == Scan(tocs[z + 1..], size).size
      && (next.size != 0 ==> next == Scan(tocs[z + 1..], size))
  {
    ScanMore(front[z + 1..], t, size);
    assert (front + [t])[z + 1..] == front[z + 1..] + [t];
  }

  /** What the search finds, for every table with an image in it. */
  lemma {:induction false} ScanFinds(tocs: seq<Toc>, size: nat) returns (i: nat)
    requires !NoImages(tocs)
    ensures FoundNearest(tocs, size, Scan(tocs, size), i)
  {
    var front, t := tocs[..|tocs| - 1], tocs[|tocs| - 1];
    assert tocs == front + [t];
    hide Scan;
    ScanMore(front, t, size);
    if NoImages(front) {
      ScanOfNone(front, size);
      i := |front|;
      assert IsImage(t) by { assert forall j :: 0 <= j < |front| ==> tocs[j] == front[j]; }
      FirstFinds(front, t, size);
    } else {
      var j := ScanFinds(front, size);
      i := NextFinds(front, t, size, Scan(front, size), j);
    }
  }

  lemma {:induction false} ScanOfNone(tocs: seq<Toc>, size: nat)
    requires NoImages(tocs)
    ensures Scan(tocs, size) == Found(0, 0)
  {
    if tocs != [] { ScanOfNone(tocs[..|tocs| - 1], size); }
  }

  lemma FirstFinds(front: seq<Toc>, t: Toc, size: nat)
    requires NoImages(front) && IsImage(t)
    ensures FoundNearest(front + [t], size, Found(t.subtype, 1), |front|)
  {
    AbsentSize(front, t.subtype);
    ImagesOfMore(front, t, t.subtype);
    if t.subtype == 0 { ZeroTakesOver(front, t, size, Found(0, 1)); }
    hide FoundPastZero, ImagesOf;
  }

  lemma NextFinds(front: seq<Toc>, t: Toc, size: nat, found: Found, j: nat) returns (i: nat)
    requires FoundNearest(front, size, found, j)
    ensures FoundNearest(front + [t], size, Next(found, t, size), i)
  {
    NearestNext(front, t, size, j);
    FarFrom(front, size, found, j);
    ImagesOfMore(front, t, t.subtype);
    ImagesOfMore(front, t, front[j].subtype);
    if IsImage(t) && Dist(t.subtype, size) < Dist(front[j].subtype, size) {
      i := |front|;
      if t.subtype == 0 { ZeroTakesOver(front, t, size, Found(0, 1)); }
    } else {
      i := j;
      if front[j].subtype == 0 { PastZeroNext(front, t, size, found, j); }
    }
    hide FoundPastZero, ImagesOf, FirstNearest;
  }

  /** What is found is never nearer than the nearest. */
  lemma FarFrom(front: seq<Toc>, size: nat, found: Found, j: nat)
    requires FoundNearest(front, size, found, j)
    ensures found.size == 0 || Dist(found.size, size) >= Dist(front[j].subtype, size)
  {
    if front[j].subtype == 0 && !HasMirror(front, size) {
      var z :| LastZero(front, z) && found.size == Scan(front[z + 1..], size).size
        && (found.size != 0 ==> found == Scan(front[z + 1..], size));
      NotAtMirror(front, size, found, z, j);
    }
  }

  /** The first image at the least distance is found exactly when it is not of nominal size 0. */
  lemma ScanMeaning(tocs: seq<Toc>, size: nat)
    ensures NoImages(tocs) ==> Scan(tocs, size) == Found(0, 0)
    ensures !NoImages(tocs) ==>
      (Scan(tocs, size).size != 0 && IsFirstMinimiser(tocs, size, Scan(tocs, size).size) <==> !IsFirstMinimiser(tocs, size, 0))
    ensures !NoImages(tocs) && !IsFirstMinimiser(tocs, size, 0) ==>
      Scan(tocs, size).count == |ImagesOf(tocs, Scan(tocs, size).size)|
    ensures IsFirstMinimiser(tocs, size, 0) ==> FoundPastZero(tocs, size, Scan(tocs, size))
  {
    hide Scan, FoundPastZero, ImagesOf;
    if NoImages(tocs) {
      ScanOfNone(tocs, size);
    } else {
      var i := ScanFinds(tocs, size);
      assert IsFirstMinimiser(tocs, size, tocs[i].subtype);
      if IsFirstMinimiser(tocs, size, 0) { OneFirstMinimiser(tocs, size, 0, tocs[i].subtype); }
      var best := Scan(tocs, size).size;
      if IsFirstMinimiser(tocs, size, best) { OneFirstMinimiser(tocs, size, best, tocs[i].subtype); }
    }
  }

  /** After the last size 0 there is none to be nearest, so what is found there is what should be. */
  lemma PastLastZero(tocs: seq<Toc>, size: nat, z: nat)
    requires LastZero(tocs, z)
    ensures var rest := tocs[z + 1..];
      && (NoImages(rest) ==> Scan(rest, size).size == 0)
      && (!NoImages(rest) ==>
            && IsFirstMinimiser(rest, size, Scan(rest, size).size)
            && Scan(rest, size).count == |ImagesOf(rest, Scan(rest, size).size)|)
  {
    ScanMeaning(tocs[z + 1..], size);
  }

  /** `_XcursorFindBestSize`: the first image at the least distance and how many have its size,
      exactly when that is not an image of nominal size 0. */
  method FindBestSize(tocs: seq<Toc>, size: nat) returns (bestSize: nat, nsizes: nat)
    ensures Found(bestSize, nsizes) == Scan(tocs, size)
    ensures NoImages(tocs) ==> bestSize == 0 && nsizes == 0
    ensures !NoImages(tocs) ==>
      (bestSize != 0 && IsFirstMinimiser(tocs, size, bestSize) <==> !IsFirstMinimiser(tocs, size, 0))
    ensures !NoImages(tocs) && !IsFirstMinimiser(tocs, size, 0) ==> nsizes == |ImagesOf(tocs, bestSize)|
    ensures IsFirstMinimiser(tocs, size, 0) ==> FoundPastZero(tocs, size, Found(bestSize, nsizes))
  {
    bestSize, nsizes := 0, 0;
    var n := 0;
    while n < |tocs|
      invariant 0 <= n <= |tocs|
      invariant Found(bestSize, nsizes) == Scan(tocs[..n], size)
    {
      assert tocs[..n + 1][..n] == tocs[..n];
      if IsImage(tocs[n]) {
        var thisSize := tocs[n].subtype;
        if bestSize == 0 || Dist(thisSize, size) < Dist(bestSize, size) {
          bestSize, nsizes := thisSize, 1;
        } else if thisSize == bestSize {
          nsizes := nsizes + 1;
        }
      }
      n := n + 1;
    }
    assert tocs[..n] == tocs;
    ScanMeaning(tocs, size);
  }

  /** `_XcursorFindImageToc`: the position of image number `count` of a size, or -1. */
  method FindImageToc(tocs: seq<Toc>, size: nat, count: nat) returns (toc: int)
    ensures toc == if count < |ImagesOf(tocs, size)| then ImagesOf(tocs, size)[count] else -1
  {
    var i := 0;
    var left: nat := count;
    while i < |tocs|
      invariant 0 <= i <= |tocs|
      invariant left + |ImagesOf(tocs[..i], size)| == count
    {
      NextImage(tocs, i, size);
      ImagesOfPrefix(tocs, size, i + 1);
      if IsImage(tocs[i]) && tocs[i].subtype == size {
        if left == 0 { return i; }
        left := left - 1;
      }
      i := i + 1;
    }
    assert tocs[..i] == tocs;
    toc := -1;
  }

  /** There are never fewer images of the size found than were counted. */
  lemma {:induction false} CountedAreThere(tocs: seq<Toc>, size: nat)
    ensures Scan(tocs, size).size != 0 ==> Scan(tocs, size).count <= |ImagesOf(tocs, Scan(tocs, size).size)|
  {
    if tocs != [] {
      var front, t := tocs[..|tocs| - 1], tocs[|tocs| - 1];
      CountedAreThere(front, size);
      assert tocs == front + [t];
      ImagesOfMore(front, t, Scan(tocs, size).size);
    }
  }

  /** The positions loaded: as many images of the size found as were counted, from the start of
      the table. */
  function Wanted(tocs: seq<Toc>, size: nat): seq<nat> {
    CountedAreThere(tocs, size);
    var found := Scan(tocs, size);
    if found.size == 0 then [] else ImagesOf(tocs, found.size)[..found.count]
  }

  /** So all images of the best size, if that is not 0. */
  lemma WantedAreAll(tocs: seq<Toc>, size: nat)
    requires !NoImages(tocs) && !IsFirstMinimiser(tocs, size, 0)
    ensures IsFirstMinimiser(tocs, size, Scan(tocs, size).size)
    ensures Wanted(tocs, size) == ImagesOf(tocs, Scan(tocs, size).size)
  {
    ScanMeaning(tocs, size);
    hide IsFirstMinimiser, Scan, ImagesOf;
  }

  /** The loading loop of `XcursorXcFileLoadImages`: the table positions read, in the order read.
      `readable` says which images can be; the load fails if none is found, or any wanted one
      cannot be read. */
  method LoadImages(tocs: seq<Toc>, size: nat, readable: set<nat>) returns (ok: bool, images: seq<nat>)
    ensures ok <==> Scan(tocs, size).size != 0 && forall i :: i in Wanted(tocs, size) ==> i in readable
    ensures images == if ok then Wanted(tocs, size) else []
  {
    var bestSize, nsize := FindBestSize(tocs, size);
    images := [];
    if bestSize == 0 { return false, images; }
    ghost var wanted := Wanted(tocs, size);
    CountedAreThere(tocs, size);
    assert |wanted| == nsize && forall k :: 0 <= k < nsize ==> wanted[k] == ImagesOf(tocs, bestSize)[k];
    hide ImagesOf, IsFirstMinimiser, Scan, Wanted, FoundPastZero;
    var n := 0;
    while n < nsize
      invariant 0 <= n <= nsize && images == wanted[..n]
      invariant forall i :: i in wanted[..n] ==> i in readable
    {
      var toc := FindImageToc(tocs, bestSize, n);
      if toc < 0 { break; }
      assert toc == wanted[n];
      if toc !in readable { break; }
      assert wanted[..n + 1] == wanted[..n] + [toc];
      images := images + [toc];
      n := n + 1;
    }
    ok := |images| == nsize;
    assert wanted[..|wanted|] == wanted;
    if !ok { images := []; }
  }
}
