/**
 * Loading the changelog data: the manifest loader, the per-file loader and
 * the join that keeps the files that loaded, in manifest order.  Each
 * loader turns every failure into a sentinel instead of failing.
 */
module Fetch {
  import opened Records

  /** The relative path of the manifest. */
  const IndexPath: string := "versions-index.json"

  /** The relative path of one version file. */
  function VersionPath(filename: string): (path: string)
    ensures |path| == 9 + |filename| && path[..9] == "versions/" && path[9..] == filename
  {
    "versions/" + filename
  }

  /** `fetchVersionsIndex`: the manifest's file list, or the empty list on a
      transport failure, a non-ok status, a body that is not JSON or a `null`
      body (reading `versionFiles` of `null` throws inside the `try`). */
  function FetchVersionsIndex(fetch: Network<Manifest>): (files: seq<string>)
    ensures Delivered(fetch(IndexPath)) ==> files == fetch(IndexPath).body.value.versionFiles
    ensures !Delivered(fetch(IndexPath)) ==> files == []
  {
    match fetch(IndexPath)
    case NetworkError => []
    case Response(ok, body) =>
      if !ok then []
      else match body
        case Parsed(manifest) => manifest.versionFiles
        case Null => []
        case Malformed => []
  }

  /** `fetchVersionData`: the parsed record, or `null` on any failure.  A
      file whose body is the JSON literal `null` also yields `null`. */
  function FetchVersionData(fetch: Network<VersionRecord>, filename: string): (r: Option<VersionRecord>)
    ensures r.Some? <==> Delivered(fetch(VersionPath(filename)))
    ensures r.Some? ==> r.value == fetch(VersionPath(filename)).body.value
  {
    match fetch(VersionPath(filename))
    case NetworkError => None
    case Response(ok, body) =>
      if !ok then None
      else match body
        case Parsed(record) => Some(record)
        case Null => None
        case Malformed => None
  }

  /** `Promise.all(versionFiles.map(fetchVersionData))`: the settled results,
      slot `i` holding file `i`'s result whatever order the fetches finish in. */
  function Settled(fetch: Network<VersionRecord>, files: seq<string>): (rs: seq<Option<VersionRecord>>)
    ensures |rs| == |files|
    ensures forall i :: 0 <= i < |files| ==> rs[i] == FetchVersionData(fetch, files[i])
  {
    seq(|files|, i requires 0 <= i < |files| => FetchVersionData(fetch, files[i]))
  }

  /** `filter(v => v !== null)`: the present values, in their original order. */
  function Present<T>(xs: seq<Option<T>>): (r: seq<T>)
    ensures |r| <= |xs|
  {
    if xs == [] then []
    else (if xs[0].Some? then [xs[0].value] else []) + Present(xs[1..])
  }

  /** The positions of the present values, ascending. */
  function PresentIndices<T>(xs: seq<Option<T>>): (idx: seq<int>)
    ensures |idx| <= |xs|
    ensures forall k :: 0 <= k < |idx| ==> 0 <= idx[k] < |xs|
  {
    Positions(xs, 0)
  }

  /** The positions of the present values of `xs`, counted from `base`. */
  function Positions<T>(xs: seq<Option<T>>, base: int): (idx: seq<int>)
    ensures |idx| <= |xs|
    ensures forall k :: 0 <= k < |idx| ==> base <= idx[k] < base + |xs|
  {
    if xs == [] then []
    else (if xs[0].Some? then [base] else []) + Positions(xs[1..], base + 1)
  }

  /** Filtering drops exactly the missing entries: the result is as long as
      the input minus the number of `null`s in it. */
  lemma {:induction false} PresentLength<T>(xs: seq<Option<T>>)
    ensures |Present(xs)| == |xs| - multiset(xs)[None]
  {
    if xs != [] {
      assert xs == [xs[0]] + xs[1..];
      assert multiset(xs) == multiset([xs[0]]) + multiset(xs[1..]);
      PresentLength(xs[1..]);
    }
  }

  /** Filtering commutes with concatenation, so no entry changes place
      relative to another. */
  lemma {:induction false} PresentAppend<T>(a: seq<Option<T>>, b: seq<Option<T>>)
    ensures Present(a + b) == Present(a) + Present(b)
  {
    if a == [] {
      assert a + b == b;
    } else {
      assert (a + b)[0] == a[0];
      assert (a + b)[1..] == a[1..] + b;
      PresentAppend(a[1..], b);
    }
  }

  /** There is one position per filtered value. */
  lemma {:induction false} PositionsLength<T>(xs: seq<Option<T>>, base: int)
    ensures |Positions(xs, base)| == |Present(xs)|
  {
    if xs != [] {
      PositionsLength(xs[1..], base + 1);
    }
  }

  /** One step of the filter: past a present head, the `k`-th value is
      the tail's `(k-1)`-th, else the tail's `k`-th. */
  lemma PresentStep<T>(xs: seq<Option<T>>, k: nat)
    requires xs != [] && k < |Present(xs)| && !(xs[0].Some? && k == 0)
    ensures var k' := if xs[0].Some? then k - 1 else k;
      k' < |Present(xs[1..])| && Present(xs)[k] == Present(xs[1..])[k']
  {
    var head: seq<T> := if xs[0].Some? then [xs[0].value] else [];
    assert Present(xs) == head + Present(xs[1..]);
  }

  /** The same step for the positions. */
  lemma PositionsStep<T>(xs: seq<Option<T>>, base: int, k: nat)
    requires xs != [] && k < |Positions(xs, base)| && !(xs[0].Some? && k == 0)
    ensures var k' := if xs[0].Some? then k - 1 else k;
      k' < |Positions(xs[1..], base + 1)| && Positions(xs, base)[k] == Positions(xs[1..], base + 1)[k']
  {
    var head: seq<int> := if xs[0].Some? then [base] else [];
    assert Positions(xs, base) == head + Positions(xs[1..], base + 1);
  }

  /** The `k`-th filtered value sits at the `k`-th position. */
  lemma {:induction false} PositionsSelect<T>(xs: seq<Option<T>>, base: int, k: nat)
    requires k < |Present(xs)| && k < |Positions(xs, base)|
    ensures 0 <= Positions(xs, base)[k] - base < |xs|
    ensures xs[Positions(xs, base)[k] - base] == Some(Present(xs)[k])
  {
    if xs[0].Some? && k == 0 {
      assert Present(xs)[0] == xs[0].value;
      assert Positions(xs, base)[0] == base;
    } else {
      var tl := xs[1..];
      var k' := if xs[0].Some? then k - 1 else k;
      PresentStep(xs, k);
      PositionsStep(xs, base, k);
      PositionsSelect(tl, base + 1, k');
      var j := Positions(tl, base + 1)[k'] - (base + 1);
      assert xs[j + 1] == tl[j];
    }
  }

  /** The positions ascend strictly. */
  lemma {:induction false} PositionsAscending<T>(xs: seq<Option<T>>, base: int)
    ensures forall j, k :: 0 <= j < k < |Positions(xs, base)| ==> Positions(xs, base)[j] < Positions(xs, base)[k]
  {
    if xs != [] {
      PositionsAscending(xs[1..], base + 1);
    }
  }

  /** Every position that holds a value is among the positions. */
  lemma {:induction false} PositionsComplete<T>(xs: seq<Option<T>>, base: int, i: nat)
    requires i < |xs| && xs[i].Some?
    ensures base + i in Positions(xs, base)
  {
    var head: seq<int> := if xs[0].Some? then [base] else [];
    var tail := Positions(xs[1..], base + 1);
    assert Positions(xs, base) == head + tail;
    if i == 0 {
      assert Positions(xs, base)[0] == base;
    } else {
      assert xs[1..][i - 1] == xs[i];
      PositionsComplete(xs[1..], base + 1, i - 1);
      var k :| 0 <= k < |tail| && tail[k] == base + i;
      assert Positions(xs, base)[|head| + k] == base + i;
    }
  }

  /** The filtered sequence is the ordered subsequence of `xs` at the
      positions `PresentIndices(xs)`, and those positions are exactly the
      ones that hold a value. */
  lemma PresentSelects<T>(xs: seq<Option<T>>)
    ensures |PresentIndices(xs)| == |Present(xs)|
    ensures forall k :: 0 <= k < |PresentIndices(xs)| ==>
      0 <= PresentIndices(xs)[k] < |xs| && xs[PresentIndices(xs)[k]] == Some(Present(xs)[k])
    ensures forall j, k :: 0 <= j < k < |PresentIndices(xs)| ==> PresentIndices(xs)[j] < PresentIndices(xs)[k]
    ensures forall i :: 0 <= i < |xs| && xs[i].Some? ==> i in PresentIndices(xs)
  {
    PositionsLength(xs, 0);
    PositionsAscending(xs, 0);
    forall k | 0 <= k < |PresentIndices(xs)|
      ensures xs[PresentIndices(xs)[k]] == Some(Present(xs)[k])
    {
      PositionsSelect(xs, 0, k);
    }
    forall i | 0 <= i < |xs| && xs[i].Some?
      ensures i in PresentIndices(xs)
    {
      PositionsComplete(xs, 0, i);
    }
  }

  /** Filtering keeps exactly the present values: every value it returns
      was present in the input, and every present input value is returned. */
  lemma PresentMembers<T>(xs: seq<Option<T>>)
    ensures forall v <- Present(xs) :: Some(v) in xs
    ensures forall i | 0 <= i < |xs| && xs[i].Some? :: xs[i].value in Present(xs)
  {
    PresentSelects(xs);
    var idx := PresentIndices(xs);
    forall v <- Present(xs)
      ensures Some(v) in xs
    {
      var k :| 0 <= k < |Present(xs)| && Present(xs)[k] == v;
      assert xs[idx[k]] == Some(v);
    }
    forall i | 0 <= i < |xs| && xs[i].Some?
      ensures xs[i].value in Present(xs)
    {
      var k :| 0 <= k < |idx| && idx[k] == i;
      assert Present(xs)[k] == xs[i].value;
    }
  }

  /** `fetchAllVersions`: load the manifest, load every file it names, keep
      the records that loaded, in manifest order. */
  function FetchAllVersions(fetchIndex: Network<Manifest>, fetchRecord: Network<VersionRecord>): (r: seq<VersionRecord>)
    ensures |r| <= |FetchVersionsIndex(fetchIndex)|
    ensures !Delivered(fetchIndex(IndexPath)) ==> r == []
  {
    Present(Settled(fetchRecord, FetchVersionsIndex(fetchIndex)))
  }

  /** The number of files among `files` whose fetch does not deliver a record. */
  function FailedCount(fetch: Network<VersionRecord>, files: seq<string>): (k: nat)
    ensures k <= |files|
  {
    if files == [] then 0
    else (if Delivered(fetch(VersionPath(files[0]))) then 0 else 1) + FailedCount(fetch, files[1..])
  }

  /** The `null` slots of the joined results are the files that failed. */
  lemma {:induction false} SettledFailures(fetch: Network<VersionRecord>, files: seq<string>)
    ensures multiset(Settled(fetch, files))[None] == FailedCount(fetch, files)
  {
    if files != [] {
      var rs := Settled(fetch, files);
      assert rs == [rs[0]] + Settled(fetch, files[1..]);
      assert multiset(rs) == multiset([rs[0]]) + multiset(Settled(fetch, files[1..]));
      SettledFailures(fetch, files[1..]);
    }
  }

  /** With N files named and K of them failing, N - K records come back. */
  lemma FetchAllVersionsCount(fetchIndex: Network<Manifest>, fetchRecord: Network<VersionRecord>)
    ensures |FetchAllVersions(fetchIndex, fetchRecord)|
      == |FetchVersionsIndex(fetchIndex)| - FailedCount(fetchRecord, FetchVersionsIndex(fetchIndex))
  {
    PresentLength(Settled(fetchRecord, FetchVersionsIndex(fetchIndex)));
    SettledFailures(fetchRecord, FetchVersionsIndex(fetchIndex));
  }

  /** The records that come back are those of the files that loaded, in
      manifest order, and every file that loaded contributes its record. */
  lemma FetchAllVersionsOrder(fetchIndex: Network<Manifest>, fetchRecord: Network<VersionRecord>)
    ensures var files := FetchVersionsIndex(fetchIndex);
            var idx := PresentIndices(Settled(fetchRecord, files));
            var r := FetchAllVersions(fetchIndex, fetchRecord);
            && |idx| == |r|
            && (forall j, k :: 0 <= j < k < |idx| ==> idx[j] < idx[k])
            && (forall k :: 0 <= k < |idx| ==>
                  0 <= idx[k] < |files| && Delivered(fetchRecord(VersionPath(files[idx[k]])))
                  && r[k] == fetchRecord(VersionPath(files[idx[k]])).body.value)
            && (forall i :: 0 <= i < |files| && Delivered(fetchRecord(VersionPath(files[i]))) ==> i in idx)
  {
    var files := FetchVersionsIndex(fetchIndex);
    var settled := Settled(fetchRecord, files);
    PresentSelects(settled);
  }

  /** A failed manifest and a manifest listing no files look the same to
      the rest of the page. */
  lemma IndexFailureLooksEmpty(fetchIndex: Network<Manifest>)
    ensures FetchVersionsIndex(fetchIndex) == [] <==>
      !Delivered(fetchIndex(IndexPath)) || fetchIndex(IndexPath).body.value.versionFiles == []
  {
  }

  /** A manifest naming two files, the first loading and the second
      answering 404: only the first record comes back. */
  lemma OneOfTwoFilesFails(v1: VersionRecord)
    ensures var fetchIndex := (path: string) => Response(true, Parsed(Manifest(["v1.json", "v2.json"])));
            var fetchRecord := (path: string) =>
              if path == VersionPath("v1.json") then Response(true, Parsed(v1)) else Response(false, Malformed);
            FetchAllVersions(fetchIndex, fetchRecord) == [v1]
  {
  }
}
