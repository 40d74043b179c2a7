/** The gateway's `ls` endpoint (gateway/endpoints/ls.go): the file system's
    stat records are converted to the records the HTTP client receives and
    then ordered directories first, each group by case-folded path. */
module Listing {
  import opened Bytes

  newtype int64 = x: int | -0x8000_0000_0000_0000 <= x < 0x8000_0000_0000_0000
  newtype uint64 = x: int | 0 <= x < 0x1_0000_0000_0000_0000

  /** A Go time.Time: whole seconds since the Unix epoch (what Unix() returns)
      and the nanoseconds within that second. */
  datatype Time = Time(unixSeconds: int64, nanos: int)

  predicate ValidTime(t: Time) {
    0 <= t.nanos < 1_000_000_000
  }

  /** The instant a time stands for, in nanoseconds since the epoch. */
  function EpochNanos(t: Time): int {
    t.unixSeconds as int * 1_000_000_000 + t.nanos
  }

  /** A stat record as the file system returns it. */
  datatype FsStat = FsStat(
    path: Bytes, user: Bytes, size: uint64, inode: uint64, depth: int64,
    modTime: Time, isDir: bool, isPinned: bool, isExplicit: bool)

  /** A stat record as the endpoint sends it; the modification time is in
      milliseconds since the epoch. */
  datatype StatInfo = StatInfo(
    path: Bytes, user: Bytes, size: uint64, inode: uint64, depth: int64,
    modTimeMs: int64, isDir: bool, isPinned: bool, isExplicit: bool)

  const MaxSeconds: int := 0x7fff_ffff_ffff_ffff / 1000

  /** Two's-complement wrap-around of a 64-bit signed product. */
  function WrapInt64(x: int): (r: int64)
    ensures (r as int - x) % 0x1_0000_0000_0000_0000 == 0
    ensures -0x8000_0000_0000_0000 <= x < 0x8000_0000_0000_0000 ==> r as int == x
  {
    ((x + 0x8000_0000_0000_0000) % 0x1_0000_0000_0000_0000 - 0x8000_0000_0000_0000) as int64
  }

  /** t.Unix() * 1000, computed in int64. */
  function UnixMillis(t: Time): int64 {
    WrapInt64(t.unixSeconds as int * 1000)
  }

  /** Within the range where the product does not overflow (about 292 million
      years either side of 1970), the milliseconds are the whole seconds times
      1000: a multiple of 1000 that drops the sub-second part, rounding toward
      the past. */
  lemma UnixMillisWholeSeconds(t: Time)
    requires ValidTime(t)
    requires -MaxSeconds <= t.unixSeconds as int <= MaxSeconds
    ensures UnixMillis(t) as int == t.unixSeconds as int * 1000
    ensures UnixMillis(t) as int % 1000 == 0
    ensures UnixMillis(t) as int * 1_000_000 <= EpochNanos(t) < (UnixMillis(t) as int + 1000) * 1_000_000
  {
  }

  /** Beyond that range, on either side, the product wraps around and is no
      longer the time in milliseconds. */
  lemma UnixMillisWraps(t: Time)
    requires t.unixSeconds as int > MaxSeconds || t.unixSeconds as int < -MaxSeconds
    ensures UnixMillis(t) as int != t.unixSeconds as int * 1000
  {
  }

  /** toExternalStatInfo: every field is copied, the time becomes milliseconds. */
  function ToExternal(i: FsStat): (r: StatInfo)
    ensures r.path == i.path && r.user == i.user
    ensures r.size == i.size && r.inode == i.inode && r.depth == i.depth
    ensures r.isDir == i.isDir && r.isPinned == i.isPinned && r.isExplicit == i.isExplicit
    ensures r.modTimeMs == UnixMillis(i.modTime)
  {
    StatInfo(i.path, i.user, i.size, i.inode, i.depth, UnixMillis(i.modTime),
             i.isDir, i.isPinned, i.isExplicit)
  }

  /** Two records that differ only below the second convert identically: the
      conversion keeps nothing but whole seconds of the time. */
  lemma ToExternalDropsSubSeconds(i: FsStat, nanos: int)
    ensures ToExternal(i.(modTime := i.modTime.(nanos := nanos))) == ToExternal(i)
  {
  }

  /** Converts every record, in order. */
  function Converted(items: seq<FsStat>): (files: seq<StatInfo>)
    ensures |files| == |items|
    ensures forall k :: 0 <= k < |items| ==> files[k] == ToExternal(items[k])
  {
    seq(|items|, k requires 0 <= k < |items| => ToExternal(items[k]))
  }

  // ---------------------------------------------------------------------------
  // Listing order

  /** The comparator handed to sort.Slice: a directory comes before a file;
      otherwise the lower-cased paths are compared as Go strings. */
  predicate ListedBefore(x: StatInfo, y: StatInfo) {
    if x.isDir != y.isDir then x.isDir else LexLess(Lower(x.path), Lower(y.path))
  }

  lemma ListedBeforeAsymmetric(x: StatInfo, y: StatInfo)
    requires ListedBefore(x, y)
    ensures !ListedBefore(y, x)
  {
    if x.isDir == y.isDir {
      LexLessAsymmetric(Lower(x.path), Lower(y.path));
    }
  }

  /** "Not after" is transitive, so the comparator is a strict weak order. */
  lemma NotBeforeTransitive(x: StatInfo, y: StatInfo, z: StatInfo)
    requires !ListedBefore(y, x) && !ListedBefore(z, y)
    ensures !ListedBefore(z, x)
  {
    if x.isDir == y.isDir && y.isDir == z.isDir {
      var a, b, c := Lower(x.path), Lower(y.path), Lower(z.path);
      LexLessTotal(a, b);
      LexLessTotal(b, c);
      if LexLess(c, a) {
        if LexLess(a, b) {
          LexLessTransitive(c, a, b);
        }
      }
    }
  }

  /** No record is listed after one that should follow it. The order among
      records with equal keys is left open, as sort.Slice is not stable. */
  predicate SortedListing(s: seq<StatInfo>) {
    forall i, j :: 0 <= i < j < |s| ==> !ListedBefore(s[j], s[i])
  }

  /** Go's `a <= b` on strings. */
  predicate LexLessOrEqual(a: Bytes, b: Bytes) {
    a == b || LexLess(a, b)
  }

  /** What a sorted listing looks like: every directory precedes every file,
      and within each group the lower-cased paths never decrease. */
  lemma SortedListingShape(s: seq<StatInfo>)
    requires SortedListing(s)
    ensures forall i, j :: 0 <= i < j < |s| && s[j].isDir ==> s[i].isDir
    ensures forall i, j :: 0 <= i < j < |s| && s[i].isDir == s[j].isDir ==>
              LexLessOrEqual(Lower(s[i].path), Lower(s[j].path))
  {
    forall i, j | 0 <= i < j < |s| && s[i].isDir == s[j].isDir
      ensures LexLessOrEqual(Lower(s[i].path), Lower(s[j].path))
    {
      LexLessTotal(Lower(s[i].path), Lower(s[j].path));
    }
  }

  /** Sorts the listing in place, as sort.Slice does with ListedBefore. Go's
      algorithm is not specified beyond its result, so an insertion sort by
      adjacent swaps stands in for it. */
  method SortListing(a: array<StatInfo>)
    modifies a
    ensures SortedListing(a[..])
    ensures multiset(a[..]) == multiset(old(a[..]))
  {
    if a.Length == 0 {
      return;
    }
    var i := 1;
    while i < a.Length
      invariant 1 <= i <= a.Length
      invariant forall p, q :: 0 <= p < q < i ==> !ListedBefore(a[q], a[p])
      invariant multiset(a[..]) == multiset(old(a[..]))
    {
      var j := i;
      while j > 0 && ListedBefore(a[j], a[j - 1])
        invariant 0 <= j <= i < a.Length
        invariant forall p, q :: 0 <= p < q <= i && p != j && q != j ==> !ListedBefore(a[q], a[p])
        invariant forall q :: j < q <= i ==> !ListedBefore(a[q], a[j])
        invariant multiset(a[..]) == multiset(old(a[..]))
      {
        ListedBeforeAsymmetric(a[j], a[j - 1]);
        a[j - 1], a[j] := a[j], a[j - 1];
        j := j - 1;
      }
      InsertedSorted(a[..], i, j);
      i := i + 1;
    }
  }

  /** After the inner loop, the element at j fits between its neighbours, so
      the prefix up to i is sorted. */
  lemma InsertedSorted(s: seq<StatInfo>, i: nat, j: nat)
    requires j <= i < |s|
    requires forall p, q :: 0 <= p < q <= i && p != j && q != j ==> !ListedBefore(s[q], s[p])
    requires forall q :: j < q <= i ==> !ListedBefore(s[q], s[j])
    requires j > 0 ==> !ListedBefore(s[j], s[j - 1])
    ensures forall p, q :: 0 <= p < q <= i ==> !ListedBefore(s[q], s[p])
  {
    forall p, q | 0 <= p < q <= i
      ensures !ListedBefore(s[q], s[p])
    {
      if q == j && p < j - 1 {
        NotBeforeTransitive(s[p], s[j - 1], s[j]);
      }
    }
  }

  /** LsHandler.ServeHTTP after the listing is read: one converted record per
      item, ordered directories first and by case-folded path. */
  method ServeListing(items: seq<FsStat>) returns (files: seq<StatInfo>)
    ensures multiset(files) == multiset(Converted(items))
    ensures SortedListing(files)
    ensures forall i, j :: 0 <= i < j < |files| && files[j].isDir ==> files[i].isDir
    ensures forall i, j :: 0 <= i < j < |files| && files[i].isDir == files[j].isDir ==>
              LexLessOrEqual(Lower(files[i].path), Lower(files[j].path))
  {
    files := [];
    for k := 0 to |items|
      invariant files == Converted(items[..k])
    {
      files := files + [ToExternal(items[k])];
    }
    assert items[..|items|] == items;
    var buffer := new StatInfo[|files|](k requires 0 <= k < |files| => files[k]);
    assert buffer[..] == files;
    SortListing(buffer);
    files := buffer[..];
    SortedListingShape(files);
  }
}
