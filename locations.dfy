/**
 * The two strings `main.py` builds by formatting: the per-game store path
 * (identical in `write_data` and in `main`) and the storefront probe URL.
 */
module Locations {
  import opened Wrappers
  import opened Decimal

  const StoreDir: string := "C:/repos/codstore/data/bundles_"
  const StoreExt: string := ".csv"
  const ProbeHost: string := "https://my.callofduty.com/store/sku/"
  const TitleSegment: string := "/title/"

  /** The path of a game's store file; the game can be read back from it. */
  function StorePath(game: string): (path: string)
    ensures |path| == |StoreDir| + |game| + |StoreExt|
    ensures GameOfStorePath(path) == Some(game)
  {
    var path := StoreDir + game + StoreExt;
    assert path[..|StoreDir|] == StoreDir;
    assert path[|path| - |StoreExt|..] == StoreExt;
    assert path[|StoreDir|..|path| - |StoreExt|] == game;
    path
  }

  /** The game a store path belongs to, when it is one. */
  function GameOfStorePath(path: string): Option<string> {
    if |path| >= |StoreDir| + |StoreExt| && path[..|StoreDir|] == StoreDir
       && path[|path| - |StoreExt|..] == StoreExt
    then Some(path[|StoreDir|..|path| - |StoreExt|])
    else None
  }

  /** Each game has its own store file. */
  lemma StorePathInjective(g1: string, g2: string)
    requires StorePath(g1) == StorePath(g2)
    ensures g1 == g2
  {
    assert GameOfStorePath(StorePath(g1)) == GameOfStorePath(StorePath(g2));
  }

  /** The storefront page probed for `sku`; it records the SKU and the game. */
  function ProbeUrl(sku: int, game: string): (url: string)
    ensures ParseProbeUrl(url) == Some((sku, game))
  {
    ParseJoinedUrl(sku, game);
    ProbeHost + IntToDecimal(sku) + TitleSegment + game
  }

  lemma ParseJoinedUrl(sku: int, game: string)
    ensures ParseProbeUrl(ProbeHost + IntToDecimal(sku) + TitleSegment + game) == Some((sku, game))
  {
    var d := IntToDecimal(sku);
    var url := ProbeHost + d + TitleSegment + game;
    assert url[..|ProbeHost|] == ProbeHost;
    var rest := url[|ProbeHost|..];
    assert rest == d + "/" + ("title/" + game);
    UpToSlashOfJoin(d, "title/" + game);
    assert rest[|d|..] == TitleSegment + game;
  }

  /** The longest prefix of `s` without a slash. */
  function UpToSlash(s: string): (r: string)
    ensures |r| <= |s| && r == s[..|r|] && '/' !in r
    ensures |r| < |s| ==> s[|r|] == '/'
  {
    if s == [] || s[0] == '/' then [] else [s[0]] + UpToSlash(s[1..])
  }

  /** The SKU and game of a probe URL, when it is one. */
  function ParseProbeUrl(url: string): Option<(int, string)> {
    if |url| < |ProbeHost| || url[..|ProbeHost|] != ProbeHost then None
    else
      var rest := url[|ProbeHost|..];
      var digits := UpToSlash(rest);
      var tail := rest[|digits|..];
      if |tail| < |TitleSegment| || tail[..|TitleSegment|] != TitleSegment then None
      else match ParseInt(digits)
        case None => None
        case Some(sku) => Some((sku, tail[|TitleSegment|..]))
  }

  lemma {:induction false} UpToSlashOfJoin(a: string, b: string)
    requires '/' !in a
    ensures UpToSlash(a + "/" + b) == a
    decreases |a|
  {
    if a != [] {
      assert (a + "/" + b)[1..] == a[1..] + "/" + b;
      UpToSlashOfJoin(a[1..], b);
      assert a == [a[0]] + a[1..];
    }
  }

  /** Distinct (SKU, game) pairs are probed at distinct URLs. */
  lemma ProbeUrlInjective(s1: int, g1: string, s2: int, g2: string)
    requires ProbeUrl(s1, g1) == ProbeUrl(s2, g2)
    ensures s1 == s2 && g1 == g2
  {
    assert ParseProbeUrl(ProbeUrl(s1, g1)) == ParseProbeUrl(ProbeUrl(s2, g2));
  }
}
