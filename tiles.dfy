/** Offline map download: for every zoom level, every tile in the rectangle between
    the tiles of the padded route bounds' north-west and south-east corners, once
    per tile-server mirror a, b and c; the URLs are then deduplicated in order of
    first occurrence and posted to the service worker. */
module Tiles {
  import opened Common
  import ServiceWorker

  datatype Mirror = A | B | C

  /** One tile URL's parts: mirror, zoom and tile numbers. */
  datatype Tile = Tile(mirror: Mirror, z: int, x: int, y: int)

  datatype TileNumber = TileNumber(x: int, y: int)

  /** The tile numbers of the padded bounds' north-west and south-east corners at one zoom. */
  datatype Corners = Corners(nw: TileNumber, se: TileNumber)

  /** The zoom levels downloaded. */
  const ZoomLevels: seq<int> := [13, 14, 15, 16, 17, 18]

  // ---------------------------------------------------------------------------
  // URL text
  // ---------------------------------------------------------------------------

  /** The position where x first occurs in s. */
  function FirstIndex<T(==)>(s: seq<T>, x: T): (k: nat)
    requires x in s
    ensures k < |s| && s[k] == x && x !in s[..k]
    decreases |s|
  {
    if s[0] == x then 0
    else
      var k := FirstIndex(s[1..], x);
      assert s[1..][..k] == s[1..k + 1];
      k + 1
  }

  function MirrorChar(m: Mirror): (c: char) {
    match m
    case A => 'a'
    case B => 'b'
    case C => 'c'
  }

  function DigitChar(d: nat): (c: char)
    requires d < 10
    ensures '0' <= c <= '9'
  {
    (48 + d) as char
  }

  /** The decimal digits of n, as a template literal prints a whole number: a
      single digit exactly for the numbers below ten. */
  function NatToString(n: nat): (s: string)
    ensures |s| >= 1 && (|s| == 1 <==> n < 10)
    ensures forall i :: 0 <= i < |s| ==> '0' <= s[i] <= '9'
    decreases n
  {
    if n < 10 then [DigitChar(n)] else NatToString(n / 10) + [DigitChar(n % 10)]
  }

  /** A whole number as printed: a minus sign for negatives, then the digits. */
  function IntToString(i: int): (s: string)
    ensures |s| >= 1 && '/' !in s
    ensures s[0] == '-' <==> i < 0
  {
    if i < 0 then "-" + NatToString(-i) else NatToString(i)
  }

  lemma {:induction false} NatToStringInjective(a: nat, b: nat)
    ensures NatToString(a) == NatToString(b) ==> a == b
    decreases a
  {
    var sa, sb := NatToString(a), NatToString(b);
    if sa == sb && a >= 10 {
      assert sa[|sa| - 1] == DigitChar(a % 10) && sb[|sb| - 1] == DigitChar(b % 10);
      assert NatToString(a / 10) == sa[..|sa| - 1] == sb[..|sb| - 1] == NatToString(b / 10);
      NatToStringInjective(a / 10, b / 10);
    }
  }

  lemma IntToStringInjective(a: int, b: int)
    ensures IntToString(a) == IntToString(b) ==> a == b
  {
    if IntToString(a) == IntToString(b) {
      var s := IntToString(a);
      if a < 0 {
        assert NatToString(-a) == s[1..] == NatToString(-b);
        NatToStringInjective(-a, -b);
      } else {
        NatToStringInjective(a, b);
      }
    }
  }

  /** Two path segments joined by a slash. */
  function Joined(a: string, b: string): (s: string) {
    a + "/" + b
  }

  /** The host of a mirror: `https://{mirror}.tile.openstreetmap.org/`. */
  function Host(m: Mirror): (h: string)
    ensures |h| == 33 && h[..8] == "https://" && h[8] == MirrorChar(m)
  {
    "https://" + [MirrorChar(m)] + ".tile.openstreetmap.org/"
  }

  /** The path of a tile: `{z}/{x}/{y}.png`. */
  function Path(z: int, x: int, y: int): (p: string)
    ensures |p| >= 9 && p[|p| - 4..] == ".png"
  {
    var last := IntToString(y) + ".png";
    var p := Joined(IntToString(z), Joined(IntToString(x), last));
    assert p[|p| - 4..] == last[|last| - 4..];
    p
  }

  /** `https://{mirror}.tile.openstreetmap.org/{z}/{x}/{y}.png`: the tile's mirror
      letter names the subdomain, and every URL is a PNG image. */
  function Url(t: Tile): (u: string)
    ensures |u| > 37 && u[..8] == "https://" && u[8] == MirrorChar(t.mirror)
    ensures u[|u| - 4..] == ".png"
  {
    var h, p := Host(t.mirror), Path(t.z, t.x, t.y);
    ConcatEnds(h, p);
    h + p
  }

  /** A concatenation begins as its first part and ends as its second. */
  lemma ConcatEnds(a: string, b: string)
    requires |a| >= 8 && |b| >= 4
    ensures (a + b)[..8] == a[..8] && (a + b)[|a + b| - 4..] == b[|b| - 4..]
  {
  }

  /** A first segment without a slash ends where the first slash is. */
  lemma {:induction false} SlashAt(a: string, b: string)
    requires '/' !in a
    ensures FirstIndex(Joined(a, b), '/') == |a|
    decreases |a|
  {
    var s := Joined(a, b);
    if a != [] {
      assert s[0] == a[0] && a[0] in a;
      assert s[1..] == Joined(a[1..], b);
      assert forall c :: c in a[1..] ==> c in a;
      SlashAt(a[1..], b);
    }
  }

  /** Joining is undone by splitting at the first slash. */
  lemma SplitJoined(a1: string, b1: string, a2: string, b2: string)
    requires '/' !in a1 && '/' !in a2
    requires Joined(a1, b1) == Joined(a2, b2)
    ensures a1 == a2 && b1 == b2
  {
    SlashAt(a1, b1);
    SlashAt(a2, b2);
    var s := Joined(a1, b1);
    assert a1 == s[..|a1|] == a2;
    assert b1 == s[|a1| + 1..] == b2;
  }

  lemma PngCancel(a: string, b: string)
    requires a + ".png" == b + ".png"
    ensures a == b
  {
    assert |a| == |b|;
    assert a == (a + ".png")[..|a|];
    assert b == (b + ".png")[..|b|];
  }

  lemma PathInjective(z1: int, x1: int, y1: int, z2: int, x2: int, y2: int)
    requires Path(z1, x1, y1) == Path(z2, x2, y2)
    ensures z1 == z2 && x1 == x2 && y1 == y2
  {
    SplitJoined(IntToString(z1), Joined(IntToString(x1), IntToString(y1) + ".png"),
                IntToString(z2), Joined(IntToString(x2), IntToString(y2) + ".png"));
    SplitJoined(IntToString(x1), IntToString(y1) + ".png", IntToString(x2), IntToString(y2) + ".png");
    PngCancel(IntToString(y1), IntToString(y2));
    IntToStringInjective(z1, z2);
    IntToStringInjective(x1, x2);
    IntToStringInjective(y1, y2);
  }

  /** Different tiles have different URLs. */
  lemma UrlInjective(t1: Tile, t2: Tile)
    ensures Url(t1) == Url(t2) ==> t1 == t2
  {
    if Url(t1) == Url(t2) {
      assert t1.mirror == t2.mirror by {
        assert MirrorChar(t1.mirror) == Url(t1)[8] == Url(t2)[8] == MirrorChar(t2.mirror);
      }
      var h1, h2 := Host(t1.mirror), Host(t2.mirror);
      var p1, p2 := Path(t1.z, t1.x, t1.y), Path(t2.z, t2.x, t2.y);
      assert p1 == p2 by {
        assert h1 + p1 == h2 + p2;
        assert p1 == (h1 + p1)[33..];
        assert p2 == (h2 + p2)[33..];
      }
      PathInjective(t1.z, t1.x, t1.y, t2.z, t2.x, t2.y);
    }
  }

  /** The URL of each tile, in order. */
  function Urls(ts: seq<Tile>): (us: seq<string>)
    ensures |us| == |ts|
  {
    seq(|ts|, i requires 0 <= i < |ts| => Url(ts[i]))
  }

  lemma UrlsAppend(a: seq<Tile>, b: seq<Tile>)
    ensures Urls(a + b) == Urls(a) + Urls(b)
  {
    forall i | 0 <= i < |a| + |b| ensures Urls(a + b)[i] == (Urls(a) + Urls(b))[i] {
      if i < |a| {
        assert (a + b)[i] == a[i];
      } else {
        assert (a + b)[i] == b[i - |a|];
      }
    }
  }

  /** Distinct tiles give distinct URLs. */
  lemma UrlsNoDup(ts: seq<Tile>)
    requires NoDup(ts)
    ensures NoDup(Urls(ts))
  {
    forall i, j | 0 <= i < j < |ts| ensures Urls(ts)[i] != Urls(ts)[j] {
      UrlInjective(ts[i], ts[j]);
    }
  }

  // ---------------------------------------------------------------------------
  // Enumeration
  // ---------------------------------------------------------------------------

  /** The three mirrors of one tile, in the order they are pushed: a, b, c. */
  function Mirrored(z: int, x: int, y: int): (r: seq<Tile>) {
    [Tile(A, z, x, y), Tile(B, z, x, y), Tile(C, z, x, y)]
  }

  /** Column x of the rectangle: y from yMin up to yLast inclusive. */
  function Column(z: int, x: int, yMin: int, yLast: int): (r: seq<Tile>)
    ensures |r| == 3 * Span(yMin, yLast)
    decreases yLast - yMin + 1
  {
    if yLast < yMin then [] else Column(z, x, yMin, yLast - 1) + Mirrored(z, x, yLast)
  }

  /** The rectangle: columns xMin up to xLast inclusive. */
  function Rect(z: int, xMin: int, xLast: int, yMin: int, yLast: int): (r: seq<Tile>)
    ensures r == [] <==> xLast < xMin || yLast < yMin
    decreases xLast - xMin + 1
  {
    if xLast < xMin then [] else Rect(z, xMin, xLast - 1, yMin, yLast) + Column(z, xLast, yMin, yLast)
  }

  /** The tiles one zoom level contributes. */
  function ZoomTiles(z: int, c: Corners): (r: seq<Tile>) {
    Rect(z, c.nw.x, c.se.x, c.nw.y, c.se.y)
  }

  /** Every zoom level's tiles, zoom by zoom. */
  function AllTiles(zooms: seq<int>, corners: int -> Corners): (r: seq<Tile>)
    ensures forall t :: t in r ==> t.z in zooms
    decreases |zooms|
  {
    if zooms == [] then []
    else
      var z := zooms[|zooms| - 1];
      ZoomTilesAtZoom(z, corners(z));
      AllTiles(zooms[..|zooms| - 1], corners) + ZoomTiles(z, corners(z))
  }

  /** Every tile a zoom level contributes is at that zoom. */
  lemma ZoomTilesAtZoom(z: int, c: Corners)
    ensures forall t :: t in ZoomTiles(z, c) ==> t.z == z
  {
    forall t | t in ZoomTiles(z, c)
      ensures t.z == z
    {
      RectMembership(z, c.nw.x, c.se.x, c.nw.y, c.se.y, t);
    }
  }

  /** How many integers lie in [lo, hi]: none when lo > hi. */
  function Span(lo: int, hi: int): (k: nat) {
    if hi < lo then 0 else hi - lo + 1
  }

  lemma {:induction false} ColumnLength(z: int, x: int, yMin: int, yLast: int)
    ensures |Column(z, x, yMin, yLast)| == 3 * Span(yMin, yLast)
    decreases yLast - yMin + 1
  {
    if yLast >= yMin {
      ColumnLength(z, x, yMin, yLast - 1);
    }
  }

  /** Before deduplication a zoom level contributes three URLs per tile of the
      inclusive rectangle, and nothing when either range is empty. */
  lemma {:induction false} RectLength(z: int, xMin: int, xLast: int, yMin: int, yLast: int)
    ensures |Rect(z, xMin, xLast, yMin, yLast)| == 3 * Span(xMin, xLast) * Span(yMin, yLast)
    decreases xLast - xMin + 1
  {
    if xLast >= xMin {
      RectLength(z, xMin, xLast - 1, yMin, yLast);
      ColumnLength(z, xLast, yMin, yLast);
      assert Span(xMin, xLast) == Span(xMin, xLast - 1) + 1;
      var sy := Span(yMin, yLast);
      assert 3 * (Span(xMin, xLast - 1) + 1) * sy == 3 * Span(xMin, xLast - 1) * sy + 3 * sy;
    }
  }

  lemma {:induction false} ColumnMembership(z: int, x: int, yMin: int, yLast: int, t: Tile)
    ensures t in Column(z, x, yMin, yLast) <==> t.z == z && t.x == x && yMin <= t.y <= yLast
    decreases yLast - yMin + 1
  {
    if yLast >= yMin {
      ColumnMembership(z, x, yMin, yLast - 1, t);
      assert t == Tile(t.mirror, t.z, t.x, t.y);
      assert t.mirror == A || t.mirror == B || t.mirror == C;
    }
  }

  /** A tile, on any mirror, is enumerated exactly when it lies in the inclusive rectangle. */
  lemma {:induction false} RectMembership(z: int, xMin: int, xLast: int, yMin: int, yLast: int, t: Tile)
    ensures t in Rect(z, xMin, xLast, yMin, yLast)
            <==> t.z == z && xMin <= t.x <= xLast && yMin <= t.y <= yLast
    decreases xLast - xMin + 1
  {
    if xLast >= xMin {
      RectMembership(z, xMin, xLast - 1, yMin, yLast, t);
      ColumnMembership(z, xLast, yMin, yLast, t);
    }
  }

  lemma {:induction false} ColumnNoDup(z: int, x: int, yMin: int, yLast: int)
    ensures NoDup(Column(z, x, yMin, yLast))
    decreases yLast - yMin + 1
  {
    if yLast >= yMin {
      ColumnNoDup(z, x, yMin, yLast - 1);
      forall t | t in Column(z, x, yMin, yLast - 1) ensures t !in Mirrored(z, x, yLast) {
        ColumnMembership(z, x, yMin, yLast - 1, t);
      }
      NoDupAppend(Column(z, x, yMin, yLast - 1), Mirrored(z, x, yLast));
    }
  }

  /** Within one zoom level no URL is enumerated twice. */
  lemma {:induction false} RectNoDup(z: int, xMin: int, xLast: int, yMin: int, yLast: int)
    ensures NoDup(Rect(z, xMin, xLast, yMin, yLast))
    decreases xLast - xMin + 1
  {
    if xLast >= xMin {
      RectNoDup(z, xMin, xLast - 1, yMin, yLast);
      ColumnNoDup(z, xLast, yMin, yLast);
      forall t | t in Rect(z, xMin, xLast - 1, yMin, yLast) ensures t !in Column(z, xLast, yMin, yLast) {
        RectMembership(z, xMin, xLast - 1, yMin, yLast, t);
        ColumnMembership(z, xLast, yMin, yLast, t);
      }
      NoDupAppend(Rect(z, xMin, xLast - 1, yMin, yLast), Column(z, xLast, yMin, yLast));
    }
  }

  /** A tile is enumerated exactly when its zoom is one of the levels and it lies in
      that level's rectangle. */
  lemma {:induction false} AllTilesMembership(zooms: seq<int>, corners: int -> Corners, t: Tile)
    ensures t in AllTiles(zooms, corners) <==> t.z in zooms && t in ZoomTiles(t.z, corners(t.z))
    decreases |zooms|
  {
    if zooms != [] {
      var z := zooms[|zooms| - 1];
      var init := zooms[..|zooms| - 1];
      AllTilesMembership(init, corners, t);
      var c := corners(z);
      RectMembership(z, c.nw.x, c.se.x, c.nw.y, c.se.y, t);
      assert zooms == init + [z];
    }
  }

  /** With distinct zoom levels, no tile is enumerated twice. */
  lemma {:induction false} AllTilesNoDup(zooms: seq<int>, corners: int -> Corners)
    requires NoDup(zooms)
    ensures NoDup(AllTiles(zooms, corners))
    decreases |zooms|
  {
    if zooms != [] {
      var z := zooms[|zooms| - 1];
      var init := zooms[..|zooms| - 1];
      assert NoDup(init);
      AllTilesNoDup(init, corners);
      var c := corners(z);
      RectNoDup(z, c.nw.x, c.se.x, c.nw.y, c.se.y);
      forall t | t in AllTiles(init, corners) ensures t !in ZoomTiles(z, c) {
        AllTilesMembership(init, corners, t);
        RectMembership(z, c.nw.x, c.se.x, c.nw.y, c.se.y, t);
        assert z !in init by {
          assert forall k :: 0 <= k < |init| ==> init[k] == zooms[k];
        }
      }
      NoDupAppend(AllTiles(init, corners), ZoomTiles(z, c));
    }
  }

  /** The inner loop of handleDownloadMap: for column x of one zoom level, y from
      the north-west tile's up to the south-east tile's, push the a, b and c URLs of
      tile (x, y). */
  method PushColumnUrls(tileUrls: seq<string>, zoom: int, x: int, yMin: int, yMax: int)
    returns (pushed: seq<string>)
    ensures pushed == tileUrls + Urls(Column(zoom, x, yMin, yMax))
  {
    pushed := tileUrls;
    ghost var column: seq<Tile> := [];
    var y := yMin;
    while y <= yMax
      invariant yMin <= y && (y <= yMax + 1 || y == yMin)
      invariant column == Column(zoom, x, yMin, y - 1)
      invariant pushed == tileUrls + Urls(column)
      decreases yMax - y + 1
    {
      pushed := pushed + [Url(Tile(A, zoom, x, y))];
      pushed := pushed + [Url(Tile(B, zoom, x, y))];
      pushed := pushed + [Url(Tile(C, zoom, x, y))];
      PushMirrored(tileUrls, column, zoom, x, y);
      column := column + Mirrored(zoom, x, y);
      y := y + 1;
    }
  }

  /** The forEach callback of handleDownloadMap for one zoom level: x from the
      north-west tile's up to the south-east tile's, each column pushed in turn. */
  method PushZoomUrls(tileUrls: seq<string>, zoom: int, minTile: TileNumber, maxTile: TileNumber)
    returns (pushed: seq<string>)
    ensures pushed == tileUrls + Urls(Rect(zoom, minTile.x, maxTile.x, minTile.y, maxTile.y))
  {
    pushed := tileUrls;
    ghost var tiles: seq<Tile> := [];
    var x := minTile.x;
    while x <= maxTile.x
      invariant minTile.x <= x && (x <= maxTile.x + 1 || x == minTile.x)
      invariant tiles == Rect(zoom, minTile.x, x - 1, minTile.y, maxTile.y)
      invariant pushed == tileUrls + Urls(tiles)
      decreases maxTile.x - x + 1
    {
      ghost var column := Column(zoom, x, minTile.y, maxTile.y);
      pushed := PushColumnUrls(pushed, zoom, x, minTile.y, maxTile.y);
      UrlsAppendAfter(tileUrls, tiles, column);
      tiles := tiles + column;
      x := x + 1;
    }
  }

  lemma UrlsAppendAfter(prefix: seq<string>, a: seq<Tile>, b: seq<Tile>)
    ensures prefix + Urls(a) + Urls(b) == prefix + Urls(a + b)
  {
    UrlsAppend(a, b);
  }

  /** Pushing the three mirrors' URLs of a tile extends the URLs of a column by that tile. */
  lemma PushMirrored(prefix: seq<string>, column: seq<Tile>, z: int, x: int, y: int)
    ensures prefix + Urls(column) + [Url(Tile(A, z, x, y))] + [Url(Tile(B, z, x, y))] + [Url(Tile(C, z, x, y))]
            == prefix + Urls(column + Mirrored(z, x, y))
  {
    UrlsAppend(column, Mirrored(z, x, y));
    var m := Urls(Mirrored(z, x, y));
    assert m[0] == Url(Tile(A, z, x, y)) && m[1] == Url(Tile(B, z, x, y)) && m[2] == Url(Tile(C, z, x, y));
    AppendThree(prefix + Urls(column), m);
  }

  lemma AppendThree(p: seq<string>, m: seq<string>)
    requires |m| == 3
    ensures p + [m[0]] + [m[1]] + [m[2]] == p + m
  {
  }

  /** handleDownloadMap's enumeration: every zoom level's URLs, zoom by zoom. */
  method CollectTileUrls(zooms: seq<int>, corners: int -> Corners) returns (tileUrls: seq<string>)
    ensures tileUrls == Urls(AllTiles(zooms, corners))
  {
    tileUrls := [];
    for i := 0 to |zooms|
      invariant tileUrls == Urls(AllTiles(zooms[..i], corners))
    {
      var zoom := zooms[i];
      tileUrls := PushZoomUrls(tileUrls, zoom, corners(zoom).nw, corners(zoom).se);
      assert zooms[..i + 1] == zooms[..i] + [zoom];
      UrlsAppend(AllTiles(zooms[..i], corners), ZoomTiles(zoom, corners(zoom)));
    }
    assert zooms[..|zooms|] == zooms;
  }

  // ---------------------------------------------------------------------------
  // Deduplication: [...new Set(urls)]
  // ---------------------------------------------------------------------------

  /** The elements in insertion order of a Set built from s: each element where it
      first occurs. */
  function Dedup<T(==)>(s: seq<T>): (r: seq<T>)
    ensures |r| <= |s|
    ensures forall x :: x in r ==> x in s
    decreases |s|
  {
    if s == [] then []
    else
      var d := Dedup(s[..|s| - 1]);
      if s[|s| - 1] in d then d else d + [s[|s| - 1]]
  }

  /** Deduplication keeps exactly the elements of s. */
  lemma {:induction false} DedupMembers<T>(s: seq<T>)
    ensures forall x :: x in Dedup(s) <==> x in s
    decreases |s|
  {
    if s != [] {
      var init, last := s[..|s| - 1], s[|s| - 1];
      assert s == init + [last];
      DedupMembers(init);
    }
  }

  /** Deduplication keeps each element once. */
  lemma {:induction false} DedupNoDup<T>(s: seq<T>)
    ensures NoDup(Dedup(s))
    decreases |s|
  {
    if s != [] {
      var init, last := s[..|s| - 1], s[|s| - 1];
      DedupNoDup(init);
      if last !in Dedup(init) {
        NoDupAppend(Dedup(init), [last]);
      }
    }
  }

  /** Deduplication keeps first-occurrence order: the distinct elements of any
      prefix of s come first in Dedup(s), in the same order. */
  lemma {:induction false} DedupPrefix<T>(s: seq<T>, k: nat)
    requires k <= |s|
    ensures Dedup(s[..k]) <= Dedup(s)
    decreases |s|
  {
    if k < |s| {
      var init := s[..|s| - 1];
      assert s[..k] == init[..k];
      DedupPrefix(init, k);
    } else {
      assert s[..k] == s;
    }
  }

  /** Deduplication keeps exactly the elements of s, each once, in the order of
      their first occurrence in s. */
  lemma DedupSpec<T>(s: seq<T>)
    ensures forall x :: x in Dedup(s) <==> x in s
    ensures NoDup(Dedup(s))
    ensures forall k :: 0 <= k <= |s| ==> Dedup(s[..k]) <= Dedup(s)
  {
    DedupMembers(s);
    DedupNoDup(s);
    forall k | 0 <= k <= |s| ensures Dedup(s[..k]) <= Dedup(s) {
      DedupPrefix(s, k);
    }
  }

  /** A sequence without repeats is its own deduplication; so deduplicating twice
      is deduplicating once. */
  lemma {:induction false} DedupOfDistinct<T>(s: seq<T>)
    requires NoDup(s)
    ensures Dedup(s) == s
    decreases |s|
  {
    if s != [] {
      var init, last := s[..|s| - 1], s[|s| - 1];
      assert s == init + [last];
      NoDupAppend(init, [last]);
      DedupOfDistinct(init);
    }
  }

  lemma DedupIdempotent<T>(s: seq<T>)
    ensures Dedup(Dedup(s)) == Dedup(s)
  {
    DedupSpec(s);
    DedupOfDistinct(Dedup(s));
  }

  // ---------------------------------------------------------------------------
  // The download button
  // ---------------------------------------------------------------------------

  /** handleDownloadMap. Without a drawn route, or without an active service worker
      controlling the page, nothing is sent; otherwise the deduplicated URLs of
      every tile at every zoom level are posted as a "cache-tiles" message.
      `corners(z)` stands for the corner tiles of the padded route bounds at zoom z. */
  method HandleDownloadMap(routeDrawn: bool, controllerActive: bool, corners: int -> Corners)
    returns (sent: Option<ServiceWorker.Message>)
    ensures !routeDrawn || !controllerActive ==> sent == None
    ensures routeDrawn && controllerActive ==>
      sent == Some(ServiceWorker.Message(ServiceWorker.CACHE_TILES, Dedup(Urls(AllTiles(ZoomLevels, corners)))))
    ensures sent.Some? ==> NoDup(sent.value.urls)
  {
    if !routeDrawn {
      return None;
    }
    if !controllerActive {
      return None;
    }
    var tileUrls := CollectTileUrls(ZoomLevels, corners);
    DedupNoDup(tileUrls);
    tileUrls := Dedup(tileUrls);
    sent := Some(ServiceWorker.Message(ServiceWorker.CACHE_TILES, tileUrls));
  }

  /** The enumeration never repeats a URL, since the zoom levels are distinct and
      URLs of different tiles differ: the deduplication removes nothing, and every
      tile of every level's rectangle is sent, on all three mirrors. */
  lemma DownloadSendsEveryTileOnce(corners: int -> Corners)
    ensures NoDup(Urls(AllTiles(ZoomLevels, corners)))
    ensures Dedup(Urls(AllTiles(ZoomLevels, corners))) == Urls(AllTiles(ZoomLevels, corners))
    ensures forall t :: t in AllTiles(ZoomLevels, corners)
                        <==> t.z in ZoomLevels && t in ZoomTiles(t.z, corners(t.z))
  {
    assert NoDup(ZoomLevels);
    AllTilesNoDup(ZoomLevels, corners);
    UrlsNoDup(AllTiles(ZoomLevels, corners));
    DedupOfDistinct(Urls(AllTiles(ZoomLevels, corners)));
    forall t ensures t in AllTiles(ZoomLevels, corners) <==> t.z in ZoomLevels && t in ZoomTiles(t.z, corners(t.z)) {
      AllTilesMembership(ZoomLevels, corners, t);
    }
  }

  /** A 2 by 2 tile rectangle at one zoom level with three mirrors gives 12 URLs,
      and still 12 after deduplication. */
  lemma TwoByTwoGivesTwelve(z: int, nw: TileNumber, corners: int -> Corners)
    requires corners(z) == Corners(nw, TileNumber(nw.x + 1, nw.y + 1))
    ensures |Urls(AllTiles([z], corners))| == 12
    ensures |Dedup(Urls(AllTiles([z], corners)))| == 12
  {
    var ts := AllTiles([z], corners);
    assert [z][..0] == [] && AllTiles([], corners) == [];
    var rect := Rect(z, nw.x, nw.x + 1, nw.y, nw.y + 1);
    assert ts == [] + rect;
    assert ts == rect;
    RectLength(z, nw.x, nw.x + 1, nw.y, nw.y + 1);
    assert Span(nw.x, nw.x + 1) == 2 && Span(nw.y, nw.y + 1) == 2;
    assert |ts| == 12;
    RectNoDup(z, nw.x, nw.x + 1, nw.y, nw.y + 1);
    assert NoDup(ts);
    UrlsNoDup(ts);
    DedupOfDistinct(Urls(ts));
  }
}
