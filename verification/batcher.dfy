/**
 * The batcher's file handling: the three path helpers that read a binary
 * feed file's name (`get_ts`, `get_basename`, `get_date`), the order in
 * which a day's directory listing is walked, and the strict time window
 * that decides which files are handed on for decoding.
 *
 * Paths are strings in the layout
 * `<bin_path>/<yyyy>/<MM>/<dd>/<utc-seconds>_<local-stamp>.bin`. The
 * directory listing is an input: reading the file system is not modelled.
 */
module Batcher {
  import opened Wrappers
  import opened JavaText

  // ---------------------------------------------------------------------------
  // Reading a file's path
  // ---------------------------------------------------------------------------

  /** The last component of a path: everything after its last '/'. */
  function FileName(fs: string): (name: string)
    ensures '/' !in name
    ensures |name| <= |fs| && fs == fs[..|fs| - |name|] + name
    ensures |name| < |fs| ==> fs[|fs| - |name| - 1] == '/'
  {
    fs[LastIndexOf(fs, '/') + 1..]
  }

  /**
   * `get_ts`: `Long.parseLong` of the text from just after the last '/' up
   * to the last '_'. When that '_' is missing or lies before the last '/',
   * `substring` throws; when the text is not a `long`, `parseLong` throws.
   * Either exception is `None`.
   */
  function GetTs(fs: string): (r: Option<int>)
    ensures r.Some? ==> INT64_MIN <= r.value <= INT64_MAX
  {
    var tsStart := LastIndexOf(fs, '/') + 1;
    var tsEnd := LastIndexOf(fs, '_');
    if tsEnd < tsStart then None
    else ParseSigned(fs[tsStart..tsEnd], INT64_MIN, INT64_MAX)
  }

  /** A name without '_' after its last '/' carries no timestamp. */
  lemma GetTsNeedsUnderscore(fs: string)
    requires '_' !in FileName(fs)
    ensures GetTs(fs).None?
  {
    assert LastIndexOf(fs, '_') < LastIndexOf(fs, '/') + 1;
  }

  /**
   * `get_basename`: the last piece of `fs.split("/")` cut at its last '.'.
   * `split` drops trailing empty pieces, so a path that ends in '/' yields
   * the component before it; a path of slashes alone leaves no piece and
   * the array access throws, as does `substring` when the piece has no '.'.
   */
  function GetBasename(fs: string): (r: Option<string>)
    ensures r.Some? <==> |JavaSplit(fs, '/')| > 0 && '.' in JavaSplit(fs, '/')[|JavaSplit(fs, '/')| - 1]
    ensures r.Some? ==> '/' !in r.value
    ensures r.Some? ==> exists ext :: '.' !in ext && JavaSplit(fs, '/')[|JavaSplit(fs, '/')| - 1] == r.value + "." + ext
  {
    var parts := JavaSplit(fs, '/');
    if |parts| == 0 then None
    else
      var fileNameBin := parts[|parts| - 1];
      var dot := LastIndexOf(fileNameBin, '.');
      if dot < 0 then None
      else
        var ext := fileNameBin[dot + 1..];
        assert '.' !in ext by {
          forall k | 0 <= k < |ext| ensures ext[k] != '.' { assert ext[k] == fileNameBin[dot + 1 + k]; }
        }
        assert fileNameBin == fileNameBin[..dot] + "." + ext;
        Some(fileNameBin[..dot])
  }

  /**
   * `get_date`: the three pieces before the file name joined with '/'.
   * With fewer than four pieces the array access throws.
   */
  function GetDate(fs: string): (r: Option<string>)
    ensures r.Some? <==> |JavaSplit(fs, '/')| >= 4
    ensures r.Some? ==> |SplitAll(r.value, '/')| == 3
  {
    var parts := JavaSplit(fs, '/');
    var n := |parts|;
    if n < 4 then None
    else
      var date := parts[n - 4] + "/" + parts[n - 3] + "/" + parts[n - 2];
      SplitAllAppend(parts[n - 4] + "/" + parts[n - 3], '/', parts[n - 2]);
      SplitAllAppend(parts[n - 4], '/', parts[n - 3]);
      Some(date)
  }

  /** The path of a feed file: `<root>/<yyyy>/<MM>/<dd>/<ts>_<stamp>.bin`. */
  function BinPath(root: string, yyyy: string, mm: string, dd: string, ts: int, stamp: string): string {
    root + "/" + yyyy + "/" + mm + "/" + dd + "/" + FeedName(ts, stamp)
  }

  /** The name of a feed file: `<ts>_<stamp>.bin`. */
  function FeedName(ts: int, stamp: string): string {
    ShowInt(ts) + "_" + stamp + ".bin"
  }

  /** The text of a path component: no separator inside. */
  predicate Component(s: string) {
    '/' !in s
  }

  lemma ShowIntPlain(n: int)
    ensures '/' !in ShowInt(n) && '_' !in ShowInt(n) && '.' !in ShowInt(n)
  {
    var s := ShowInt(n);
    var digits := ShowNat(if n < 0 then -n else n);
    assert forall i :: 0 <= i < |digits| ==> IsDigit(digits[i]);
    if n < 0 {
      assert forall i :: 1 <= i < |s| ==> s[i] == digits[i - 1];
    }
  }

  /** `get_ts` reads the number between the last '/' and the last '_'. */
  lemma TsRoundTrip(dir: string, ts: int, rest: string)
    requires '/' !in rest && '_' !in rest
    requires INT64_MIN <= ts <= INT64_MAX
    ensures GetTs(dir + "/" + (ShowInt(ts) + "_" + rest)) == Some(ts)
  {
    var digits := ShowInt(ts);
    ShowIntPlain(ts);
    var name := digits + "_" + rest;
    var fs := dir + "/" + name;
    assert fs == dir + "/" + digits + "_" + rest;
    LastIndexOfAppend(dir, '/', name);
    assert LastIndexOf(fs, '/') == |dir|;
    LastIndexOfAppend(dir + "/" + digits, '_', rest);
    assert LastIndexOf(fs, '_') == |dir| + 1 + |digits|;
    var upTo := dir + "/" + digits;
    assert fs[..|upTo|] == upTo;
    assert upTo[|dir| + 1..] == digits;
    assert fs[|dir| + 1..|upTo|] == fs[..|upTo|][|dir| + 1..];
    assert fs[LastIndexOf(fs, '/') + 1..LastIndexOf(fs, '_')] == digits;
    ParseShowInt(ts, INT64_MIN, INT64_MAX);
    assert ParseSigned(digits, INT64_MIN, INT64_MAX) == Some(ts);
  }

  /** The pieces `split("/")` makes of a feed file's path. */
  lemma BinPathPieces(root: string, yyyy: string, mm: string, dd: string, name: string)
    requires Component(yyyy) && Component(mm) && Component(dd) && Component(name) && name != ""
    ensures JavaSplit(root + "/" + yyyy + "/" + mm + "/" + dd + "/" + name, '/')
         == SplitAll(root, '/') + [yyyy, mm, dd, name]
  {
    var a1 := root + "/" + yyyy;
    var a2 := a1 + "/" + mm;
    var a3 := a2 + "/" + dd;
    var fs := a3 + "/" + name;
    SplitAllAppend(root, '/', yyyy);
    SplitAllAppend(a1, '/', mm);
    SplitAllAppend(a2, '/', dd);
    SplitAllAppend(a3, '/', name);
    var p0 := SplitAll(root, '/');
    var parts := p0 + [yyyy, mm, dd, name];
    assert SplitAll(a2, '/') == p0 + [yyyy, mm] by {
      assert p0 + [yyyy] + [mm] == p0 + [yyyy, mm];
    }
    assert SplitAll(a3, '/') == p0 + [yyyy, mm, dd] by {
      assert p0 + [yyyy, mm] + [dd] == p0 + [yyyy, mm, dd];
    }
    assert SplitAll(fs, '/') == parts by {
      assert p0 + [yyyy, mm, dd] + [name] == parts;
    }
    assert fs[|a3|] == '/';
    assert JavaSplit(fs, '/') == DropTrailingEmpty(parts);
  }

  /**
   * The three helpers read back what `BinPath` wrote: the timestamp (when
   * it fits a `long`), the file name without `.bin`, and the date
   * directories.
   */
  lemma BinPathRoundTrip(root: string, yyyy: string, mm: string, dd: string, ts: int, stamp: string)
    requires Component(yyyy) && Component(mm) && Component(dd)
    requires Component(stamp) && '_' !in stamp && '.' !in stamp
    requires INT64_MIN <= ts <= INT64_MAX
    ensures GetTs(BinPath(root, yyyy, mm, dd, ts, stamp)) == Some(ts)
    ensures GetBasename(BinPath(root, yyyy, mm, dd, ts, stamp)) == Some(ShowInt(ts) + "_" + stamp)
    ensures GetDate(BinPath(root, yyyy, mm, dd, ts, stamp)) == Some(yyyy + "/" + mm + "/" + dd)
  {
    var digits := ShowInt(ts);
    ShowIntPlain(ts);
    var base := digits + "_" + stamp;
    var name := FeedName(ts, stamp);
    assert name == base + "." + "bin";
    var dir := root + "/" + yyyy + "/" + mm + "/" + dd;
    var fs := BinPath(root, yyyy, mm, dd, ts, stamp);
    assert name == digits + "_" + (stamp + ".bin");
    TsRoundTrip(dir, ts, stamp + ".bin");
    BinPathPieces(root, yyyy, mm, dd, name);
    BasenameOfPieces(fs, base, "bin");
    DateOfPieces(fs, SplitAll(root, '/'), yyyy, mm, dd, name);
  }

  /**
   * `get_basename` cuts the last piece at its last '.': a last piece
   * `base.ext` with no '.' in `ext` gives `base`, whatever `base` holds.
   */
  lemma BasenameOfPieces(fs: string, base: string, ext: string)
    requires |JavaSplit(fs, '/')| > 0 && '.' !in ext
    requires JavaSplit(fs, '/')[|JavaSplit(fs, '/')| - 1] == base + "." + ext
    ensures GetBasename(fs) == Some(base)
  {
    var name := base + "." + ext;
    LastIndexOfAppend(base, '.', ext);
    assert name[..|base|] == base;
  }

  /** `get_date` joins the three pieces before the last. */
  lemma DateOfPieces(fs: string, init: seq<string>, yyyy: string, mm: string, dd: string, name: string)
    requires JavaSplit(fs, '/') == init + [yyyy, mm, dd, name]
    ensures GetDate(fs) == Some(yyyy + "/" + mm + "/" + dd)
  {
    var parts := init + [yyyy, mm, dd, name];
    var n := |parts|;
    assert parts[n - 4] == yyyy && parts[n - 3] == mm && parts[n - 2] == dd;
  }

  /**
   * The worked example of the helpers:
   * `<bin_path>/2016/03/07/1457334014_2016-03-07-07-00-14.bin`.
   */
  lemma WorkedExample(root: string, yyyy: string, mm: string, dd: string, ts: int, stamp: string)
    requires yyyy == "2016" && mm == "03" && dd == "07"
    requires ts == 1457334014 && stamp == "2016-03-07-07-00-14"
    ensures GetTs(BinPath(root, yyyy, mm, dd, ts, stamp)) == Some(1457334014)
    ensures GetDate(BinPath(root, yyyy, mm, dd, ts, stamp)) == Some("2016/03/07")
  {
    assert yyyy + "/" + mm + "/" + dd == "2016/03/07";
    BinPathRoundTrip(root, yyyy, mm, dd, ts, stamp);
  }

  // ---------------------------------------------------------------------------
  // The order of a directory listing
  // ---------------------------------------------------------------------------

  /**
   * The natural order of paths: character by character, a proper prefix
   * first. (`UnixPath.compareTo` compares the UTF-8 bytes, which orders as
   * code points do.)
   */
  predicate PathLe(a: string, b: string)
    decreases |a|
  {
    |a| == 0 || (|b| > 0 && (a[0] < b[0] || (a[0] == b[0] && PathLe(a[1..], b[1..]))))
  }

  lemma {:induction false} PathLeTotal(a: string, b: string)
    ensures PathLe(a, b) || PathLe(b, a)
    decreases |a|
  {
    if |a| > 0 && |b| > 0 && a[0] == b[0] {
      PathLeTotal(a[1..], b[1..]);
    }
  }

  lemma {:induction false} PathLeAntisymmetric(a: string, b: string)
    requires PathLe(a, b) && PathLe(b, a)
    ensures a == b
    decreases |a|
  {
    if |a| > 0 {
      PathLeAntisymmetric(a[1..], b[1..]);
      assert a == [a[0]] + a[1..] && b == [b[0]] + b[1..];
    }
  }

  lemma {:induction false} PathLeTransitive(a: string, b: string, c: string)
    requires PathLe(a, b) && PathLe(b, c)
    ensures PathLe(a, c)
    decreases |a|
  {
    if |a| > 0 && a[0] == b[0] && b[0] == c[0] {
      PathLeTransitive(a[1..], b[1..], c[1..]);
    }
  }

  /** A common prefix does not change the order. */
  lemma {:induction false} PathLePrefix(p: string, a: string, b: string)
    ensures PathLe(p + a, p + b) <==> PathLe(a, b)
    decreases |p|
  {
    if |p| > 0 {
      PathLePrefix(p[1..], a, b);
      assert (p + a)[1..] == p[1..] + a && (p + b)[1..] == p[1..] + b;
    } else {
      assert p + a == a && p + b == b;
    }
  }

  predicate Sorted(s: seq<string>) {
    forall i, j :: 0 <= i < j < |s| ==> PathLe(s[i], s[j])
  }

  /** One path put in its place in a sorted listing. */
  function Insert(x: string, s: seq<string>): (r: seq<string>)
    requires Sorted(s)
    ensures Sorted(r)
    ensures multiset(r) == multiset(s) + multiset{x}
    decreases |s|
  {
    if |s| == 0 then [x]
    else if PathLe(x, s[0]) then
      assert forall j :: 0 < j < |s| ==> PathLe(s[0], s[j]);
      forall j | 0 < j < |s| ensures PathLe(x, s[j]) {
        PathLeTransitive(x, s[0], s[j]);
      }
      assert s == [s[0]] + s[1..];
      [x] + s
    else
      var rest := Insert(x, s[1..]);
      PathLeTotal(x, s[0]);
      forall y | y in rest ensures PathLe(s[0], y) {
        assert y in multiset(rest);
        if y != x {
          assert y in multiset(s[1..]);
          var j :| 0 <= j < |s[1..]| && s[1..][j] == y;
          assert s[j + 1] == y;
        }
      }
      assert s == [s[0]] + s[1..];
      [s[0]] + rest
  }

  /** `Collections.sort` of the listing. */
  function SortPaths(s: seq<string>): (r: seq<string>)
    ensures Sorted(r)
    ensures multiset(r) == multiset(s)
    decreases |s|
  {
    if |s| == 0 then []
    else
      assert s == s[..|s| - 1] + [s[|s| - 1]];
      Insert(s[|s| - 1], SortPaths(s[..|s| - 1]))
  }

  /**
   * A listing has one sorted order: two sorted sequences holding the same
   * paths are equal. So any correct sort of the listing, stable or not,
   * gives `SortPaths` of it.
   */
  lemma {:induction false} SortedUnique(a: seq<string>, b: seq<string>)
    requires Sorted(a) && Sorted(b) && multiset(a) == multiset(b)
    ensures a == b
    decreases |a|
  {
    if |a| > 0 {
      SortedSameHead(a, b);
      assert multiset(a[1..]) == multiset(b[1..]) by {
        assert a == [a[0]] + a[1..] && b == [b[0]] + b[1..];
        assert multiset(a[1..]) == multiset(a) - multiset{a[0]};
        assert multiset(b[1..]) == multiset(b) - multiset{b[0]};
      }
      SortedUnique(a[1..], b[1..]);
      assert a == [a[0]] + a[1..] && b == [b[0]] + b[1..];
    }
  }

  /** Two sorted sequences of the same paths start with the same path. */
  lemma SortedSameHead(a: seq<string>, b: seq<string>)
    requires Sorted(a) && Sorted(b) && multiset(a) == multiset(b) && |a| > 0
    ensures |b| == |a| && a[0] == b[0]
  {
    assert |multiset(a)| == |a| && |multiset(b)| == |b|;
    assert a[0] in multiset(b);
    var j :| 0 <= j < |b| && b[j] == a[0];
    assert b[0] in multiset(a);
    var i :| 0 <= i < |a| && a[i] == b[0];
    if i != 0 && j != 0 {
      assert PathLe(a[0], a[i]) && PathLe(b[0], b[j]);
      PathLeAntisymmetric(a[0], b[0]);
    }
  }

  /** The order of the walk depends only on which paths the listing holds. */
  lemma SortIgnoresListingOrder(l1: seq<string>, l2: seq<string>)
    requires multiset(l1) == multiset(l2)
    ensures SortPaths(l1) == SortPaths(l2)
  {
    SortedUnique(SortPaths(l1), SortPaths(l2));
  }

  // ---------------------------------------------------------------------------
  // Choosing the files of the window
  // ---------------------------------------------------------------------------

  /** `start_ts < file_ts && finish_ts > file_ts`: both ends excluded. */
  predicate InWindow(ts: int, start: int, finish: int) {
    start < ts < finish
  }

  /**
   * How the walk reads a file's timestamp from its path; `process_bin_dir`
   * uses `get_ts`, that is `GetTs`. The walk is stated for any reader, so
   * that its proofs do not depend on how a name is parsed.
   */
  type TsReader = string -> Option<int>

  /** A path whose name carries a timestamp inside the window. */
  predicate Wanted(read: TsReader, path: string, start: int, finish: int) {
    read(path).Some? && InWindow(read(path).value, start, finish)
  }

  /** The wanted paths of a listing, in listing order. */
  function Selected(paths: seq<string>, read: TsReader, start: int, finish: int): (r: seq<string>)
    ensures forall p :: p in r <==> p in paths && Wanted(read, p, start, finish)
    ensures |r| <= |paths|
    decreases |paths|
  {
    if |paths| == 0 then []
    else
      var rest := Selected(paths[1..], read, start, finish);
      assert forall p :: p in paths <==> p == paths[0] || p in paths[1..];
      if Wanted(read, paths[0], start, finish) then [paths[0]] + rest else rest
  }

  /** `xs` is `ys` with some elements left out, the rest in order. */
  predicate SubsequenceOf(xs: seq<string>, ys: seq<string>)
    decreases |ys|
  {
    |xs| == 0 || (|ys| > 0 && (if xs[0] == ys[0] then SubsequenceOf(xs[1..], ys[1..]) else SubsequenceOf(xs, ys[1..])))
  }

  lemma {:induction false} SelectedIsSubsequence(paths: seq<string>, read: TsReader, start: int, finish: int)
    ensures SubsequenceOf(Selected(paths, read, start, finish), paths)
    decreases |paths|
  {
    if |paths| > 0 {
      var r := Selected(paths, read, start, finish);
      SelectedIsSubsequence(paths[1..], read, start, finish);
      if !Wanted(read, paths[0], start, finish) && |r| > 0 {
        assert r[0] in r;
      }
    }
  }

  /** A subsequence of a sorted listing is sorted. */
  lemma {:induction false} SubsequenceSorted(xs: seq<string>, ys: seq<string>)
    requires SubsequenceOf(xs, ys) && Sorted(ys)
    ensures Sorted(xs)
    ensures forall x :: x in xs ==> x in ys
    decreases |ys|
  {
    if |xs| > 0 {
      if xs[0] == ys[0] {
        SubsequenceSorted(xs[1..], ys[1..]);
        forall j | 0 < j < |xs| ensures PathLe(xs[0], xs[j]) {
          assert xs[j] in xs[1..];
          var k :| 0 <= k < |ys[1..]| && ys[1..][k] == xs[j];
          assert ys[k + 1] == xs[j];
        }
        assert xs == [xs[0]] + xs[1..];
      } else {
        SubsequenceSorted(xs, ys[1..]);
      }
    }
  }

  /** The wanted paths of a sorted listing come out sorted. */
  lemma SelectedSorted(paths: seq<string>, read: TsReader, start: int, finish: int)
    requires Sorted(paths)
    ensures Sorted(Selected(paths, read, start, finish))
  {
    SelectedIsSubsequence(paths, read, start, finish);
    SubsequenceSorted(Selected(paths, read, start, finish), paths);
  }

  /**
   * What `process_bin_dir` hands to `process_gtfs_file`, in order, and the
   * path whose name made `get_ts` throw, if one did. `get_ts` runs outside
   * the `try`, so its exception leaves the `forEach` and ends the walk.
   */
  datatype Walk = Walk(processed: seq<string>, failedOn: Option<string>)

  /** The index of the first path the reader cannot read, or the length. */
  function FirstBadName(paths: seq<string>, read: TsReader): (k: nat)
    ensures k <= |paths|
    ensures forall i :: 0 <= i < k ==> read(paths[i]).Some?
    ensures k < |paths| ==> read(paths[k]).None?
    decreases |paths|
  {
    if |paths| == 0 || read(paths[0]).None? then 0
    else 1 + FirstBadName(paths[1..], read)
  }

  /** The `forEach` over the sorted listing, as written. */
  function WalkSorted(paths: seq<string>, read: TsReader, start: int, finish: int): (w: Walk)
    decreases |paths|
  {
    if |paths| == 0 then Walk([], None)
    else if read(paths[0]).None? then Walk([], Some(paths[0]))
    else
      var rest := WalkSorted(paths[1..], read, start, finish);
      Walk((if Wanted(read, paths[0], start, finish) then [paths[0]] else []) + rest.processed, rest.failedOn)
  }

  /**
   * The walk processes exactly the wanted paths before the first name the
   * reader cannot read, and stops on that name.
   */
  lemma {:induction false} WalkStopsAtFirstBadName(paths: seq<string>, read: TsReader, start: int, finish: int)
    ensures var w := WalkSorted(paths, read, start, finish);
      var k := FirstBadName(paths, read);
      w.processed == Selected(paths[..k], read, start, finish) &&
      w.failedOn == (if k < |paths| then Some(paths[k]) else None)
    decreases |paths|
  {
    if |paths| > 0 && read(paths[0]).Some? {
      WalkStopsAtFirstBadName(paths[1..], read, start, finish);
      var k := FirstBadName(paths, read);
      assert paths[..k][0] == paths[0];
      assert paths[..k][1..] == paths[1..][..k - 1];
    }
  }

  /** `process_bin_dir`, as written: sort the listing, then walk it. */
  function ProcessBinDir(listing: seq<string>, start: int, finish: int): (w: Walk)
    ensures Sorted(w.processed)
    ensures forall p :: p in w.processed ==> p in listing && Wanted(GetTs, p, start, finish)
    ensures w.failedOn.Some? ==> w.failedOn.value in listing && GetTs(w.failedOn.value).None?
    ensures w.failedOn.None? ==> forall p :: p in listing ==> GetTs(p).Some?
  {
    var sorted := SortPaths(listing);
    var k := FirstBadName(sorted, GetTs);
    WalkStopsAtFirstBadName(sorted, GetTs, start, finish);
    assert Sorted(sorted[..k]);
    SelectedSorted(sorted[..k], GetTs, start, finish);
    assert forall p :: p in sorted <==> p in listing by {
      assert forall p :: p in sorted <==> p in multiset(sorted);
    }
    WalkSorted(sorted, GetTs, start, finish)
  }

  /**
   * When every name in the listing carries a timestamp, the walk processes
   * exactly the files of the window, in sorted order.
   */
  lemma WalkWhenNamesAreGood(listing: seq<string>, start: int, finish: int)
    requires forall p :: p in listing ==> GetTs(p).Some?
    ensures ProcessBinDir(listing, start, finish) == Walk(Selected(SortPaths(listing), GetTs, start, finish), None)
  {
    var sorted := SortPaths(listing);
    var k := FirstBadName(sorted, GetTs);
    forall i | 0 <= i < |sorted| ensures GetTs(sorted[i]).Some? {
      assert sorted[i] in multiset(listing);
    }
    WalkStopsAtFirstBadName(sorted, GetTs, start, finish);
    assert sorted[..k] == sorted;
  }

  // ---------------------------------------------------------------------------
  // One unreadable name hides the rest of the directory
  // ---------------------------------------------------------------------------

  /**
   * Skipping, rather than stopping at, a file whose name carries no
   * timestamp: the files of the window, in sorted order.
   */
  function ProcessBinDirSkipping(listing: seq<string>, start: int, finish: int): (r: seq<string>)
    ensures Sorted(r)
    ensures forall p :: p in r <==> p in listing && Wanted(GetTs, p, start, finish)
  {
    var sorted := SortPaths(listing);
    SelectedSorted(sorted, GetTs, start, finish);
    assert forall p :: p in sorted <==> p in listing by {
      assert forall p :: p in sorted <==> p in multiset(sorted);
    }
    Selected(sorted, GetTs, start, finish)
  }

  /**
   * Skipping processes the same files whatever order the listing came in,
   * and agrees with the walk as written whenever every name is readable.
   */
  lemma SkippingAgreesWithWalk(l1: seq<string>, l2: seq<string>, start: int, finish: int)
    requires multiset(l1) == multiset(l2)
    ensures ProcessBinDirSkipping(l1, start, finish) == ProcessBinDirSkipping(l2, start, finish)
    ensures (forall p :: p in l1 ==> GetTs(p).Some?) ==>
      ProcessBinDir(l1, start, finish) == Walk(ProcessBinDirSkipping(l1, start, finish), None)
  {
    SortIgnoresListingOrder(l1, l2);
    if forall p :: p in l1 ==> GetTs(p).Some? {
      WalkWhenNamesAreGood(l1, start, finish);
    }
  }

  /**
   * `get_ts` cannot read a name whose text before the last '_' starts with
   * something other than a sign or a digit.
   */
  lemma UnreadableName(dir: string, lead: string, rest: string)
    requires '/' !in lead && '/' !in rest && '_' !in rest
    requires |lead| > 0 && !IsDigit(lead[0]) && lead[0] != '-' && lead[0] != '+'
    ensures GetTs(dir + "/" + (lead + "_" + rest)).None?
  {
    var name := lead + "_" + rest;
    var fs := dir + "/" + name;
    assert fs == dir + "/" + lead + "_" + rest;
    LastIndexOfAppend(dir, '/', name);
    assert LastIndexOf(fs, '/') == |dir|;
    LastIndexOfAppend(dir + "/" + lead, '_', rest);
    assert LastIndexOf(fs, '_') == |dir| + 1 + |lead|;
    var upTo := dir + "/" + lead;
    assert fs[..|upTo|] == upTo;
    assert upTo[|dir| + 1..] == lead;
    assert fs[|dir| + 1..|upTo|] == fs[..|upTo|][|dir| + 1..];
    assert fs[LastIndexOf(fs, '/') + 1..LastIndexOf(fs, '_')] == lead;
  }

  /** A name starting with '.' sorts before one starting with a digit. */
  lemma DotSortsFirst(dir: string, dotted: string, name: string)
    requires |dotted| > 0 && dotted[0] == '.' && |name| > 0 && IsDigit(name[0])
    ensures SortPaths([dir + name, dir + dotted]) == [dir + dotted, dir + name]
  {
    var feed := dir + name;
    var stray := dir + dotted;
    PathLePrefix(dir, dotted, name);
    PathLePrefix(dir, name, dotted);
    assert PathLe(stray, feed) && !PathLe(feed, stray);
    assert multiset([stray, feed]) == multiset([feed, stray]);
    SortedUnique(SortPaths([feed, stray]), [stray, feed]);
  }

  /**
   * A hidden file such as `.DS_Store` (`hidden` ".DS", `rest` "Store")
   * beside a feed file of the window: it sorts first ('.' comes before
   * every digit), `get_ts` cannot read it, and the walk ends before the
   * feed file is reached, while skipping it processes the feed file.
   */
  lemma StrayFileStopsWalk(dir: string, ts: int, stamp: string, hidden: string, rest: string, start: int, finish: int)
    requires '/' !in stamp && '_' !in stamp
    requires 0 <= ts <= INT64_MAX && InWindow(ts, start, finish)
    requires |hidden| > 0 && hidden[0] == '.' && '/' !in hidden && '/' !in rest && '_' !in rest
    ensures var feed := dir + "/" + (ShowInt(ts) + "_" + stamp);
      var stray := dir + "/" + (hidden + "_" + rest);
      ProcessBinDir([feed, stray], start, finish) == Walk([], Some(stray)) &&
      ProcessBinDirSkipping([feed, stray], start, finish) == [feed]
  {
    var name := ShowInt(ts) + "_" + stamp;
    var dotted := hidden + "_" + rest;
    var feed := dir + "/" + name;
    var stray := dir + "/" + dotted;
    TsRoundTrip(dir, ts, stamp);
    UnreadableName(dir, hidden, rest);
    assert IsDigit(name[0]) && dotted[0] == '.';
    DotSortsFirst(dir + "/", dotted, name);
    assert WalkSorted([stray, feed], GetTs, start, finish) == Walk([], Some(stray));
    assert Selected([stray, feed], GetTs, start, finish) == [feed];
  }
}
