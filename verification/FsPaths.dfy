/** Where the filesystem backend keeps each file of a recipe. A path is its list of components. */
module FsPaths {
  import opened Text

  type Path = seq<string>

  function Take(s: string, n: nat): string {
    if |s| < n then s else s[..n]
  }

  function Drop(s: string, n: nat): string {
    if |s| < n then "" else s[n..]
  }

  /** `version.split(":", 1)[-1]`. */
  function AfterColon(version: string): string {
    var k := IndexOf(version, ':');
    if k < |version| then version[k + 1..] else version
  }

  /** `_version_path`: sharded by the first four characters of the digest. */
  function VersionPath(r: string, version: string): Path {
    var d := AfterColon(version);
    [r, ".snapcook", "versions", Take(d, 2), Take(Drop(d, 2), 2), d + ".json"]
  }

  function RefPath(r: string): Path {
    [r, ".snapcook", "refs", "heads", "main"]
  }

  function HeadPath(r: string): Path {
    [r, ".snapcook", "HEAD"]
  }

  function ConfigPath(r: string): Path {
    [r, ".snapcook", "config.json"]
  }

  function CanonicalPath(r: string): Path {
    [r, "recipe.json"]
  }

  function CookPath(r: string): Path {
    [r, "recipe.cook"]
  }

  function ReadmePath(r: string): Path {
    [r, "README.md"]
  }

  /** A well-formed version text: the algorithm prefix and a digest. */
  function IdText(digest: string): string {
    "sc1:" + digest
  }

  lemma AfterColonOfId(digest: string)
    ensures AfterColon(IdText(digest)) == digest
  {
    IndexOfSkips("sc1", ':', digest);
    assert IdText(digest) == "sc1" + [':'] + digest;
  }

  /** Two versions share a file exactly if they are the same version of the same recipe. */
  lemma {:induction false} VersionPathInjective(r: string, d: string, q: string, e: string)
    ensures VersionPath(r, IdText(d)) == VersionPath(q, IdText(e)) <==> r == q && d == e
  {
    AfterColonOfId(d);
    AfterColonOfId(e);
    var p, u := VersionPath(r, IdText(d)), VersionPath(q, IdText(e));
    if p == u {
      assert p[0] == u[0] && p[5] == u[5];
      assert (d + ".json")[..|d|] == d && (e + ".json")[..|e|] == e;
    }
  }

  /** No version file is one of the recipe's other files, and those are all different. */
  lemma PathsDisjoint(r: string, version: string, q: string)
    ensures VersionPath(r, version) !in [RefPath(q), HeadPath(q), ConfigPath(q), CanonicalPath(q), CookPath(q),
                                         ReadmePath(q)]
    ensures RefPath(r) !in [HeadPath(q), ConfigPath(q), CanonicalPath(q), CookPath(q), ReadmePath(q)]
    ensures RefPath(r) == RefPath(q) <==> r == q
    ensures CanonicalPath(r) !in [HeadPath(q), ConfigPath(q), CookPath(q), ReadmePath(q)]
    ensures CanonicalPath(r) == CanonicalPath(q) <==> r == q
  {
    var v := VersionPath(r, version);
    assert |v| == 6 && |RefPath(q)| == 5 && |HeadPath(q)| == 3 && |ConfigPath(q)| == 3 && |CanonicalPath(q)| == 2;
    assert |CookPath(q)| == 2 && |ReadmePath(q)| == 2 && |CanonicalPath(r)| == 2;
    assert CanonicalPath(r)[1] == "recipe.json" && CookPath(q)[1] == "recipe.cook" && ReadmePath(q)[1] == "README.md";
    assert CanonicalPath(r)[1][0] == 'r' && ReadmePath(q)[1][0] == 'R';
    assert CanonicalPath(r)[1][7] == 'j' && CookPath(q)[1][7] == 'c';
    assert RefPath(r)[0] == r && RefPath(q)[0] == q && CanonicalPath(r)[0] == r && CanonicalPath(q)[0] == q;
  }

  /** The path lies in the recipe's metadata directory. */
  predicate InMeta(p: Path, r: string) {
    |p| >= 2 && p[0] == r && p[1] == ".snapcook"
  }

  lemma MetaPaths(r: string, version: string, q: string)
    ensures InMeta(VersionPath(r, version), q) <==> r == q
    ensures InMeta(RefPath(r), q) <==> r == q
    ensures InMeta(HeadPath(r), q) <==> r == q
    ensures InMeta(ConfigPath(r), q) <==> r == q
    ensures !InMeta(CanonicalPath(r), q) && !InMeta(CookPath(r), q) && !InMeta(ReadmePath(r), q)
  {
    assert ".snapcook"[0] == '.' && "recipe.json"[0] == 'r' && "recipe.cook"[0] == 'r' && "README.md"[0] == 'R';
  }
}
