/**
 How the `/capture` handler turns a parsed address into a place on disk
 (server.js lines 86-89). The host name and the path of the address are each
 sanitised by the regular expression `/[^a-z0-9]/gi` with replacement `_`:
 every character that is not an ASCII letter (either case) or digit becomes
 an underscore. The snapshot then lives at
 `storageRoot/safeHost/safePath/index.html`.

 `path.join` is modelled as plain concatenation of segments with `/`.
 */
module PathMapper {

  /** The parts of a parsed address the handler can see. Only `hostname`
      and `pathname` take part in the key. */
  datatype UrlParts = UrlParts(
    protocol: string,
    hostname: string,
    pathname: string,
    search: string,
    hash: string)

  /** The identity of a cached page: the sanitised host and path. */
  datatype Key = Key(host: string, path: string)

  /** A character the regular expression's class `[a-z0-9]` matches under
      the case-insensitive flag. */
  predicate IsAlnum(c: char) {
    ('a' <= c <= 'z') || ('A' <= c <= 'Z') || ('0' <= c <= '9')
  }

  /** A character that can appear in a sanitised segment. */
  predicate IsSafeChar(c: char) {
    IsAlnum(c) || c == '_'
  }

  predicate IsSafe(s: string) {
    forall i :: 0 <= i < |s| ==> IsSafeChar(s[i])
  }

  function SanitizeChar(c: char): char {
    if IsAlnum(c) then c else '_'
  }

  /** `s.replace(/[^a-z0-9]/gi, '_')`. */
  function Sanitize(s: string): (r: string)
    ensures |r| == |s|
    ensures forall i :: 0 <= i < |s| && IsAlnum(s[i]) ==> r[i] == s[i]
    ensures forall i :: 0 <= i < |s| && !IsAlnum(s[i]) ==> r[i] == '_'
    ensures IsSafe(r)
  {
    if |s| == 0 then []
    else Sanitize(s[..|s| - 1]) + [SanitizeChar(s[|s| - 1])]
  }

  /** A string is its own sanitisation exactly when it is already safe. */
  lemma SanitizeFixedPoints(s: string)
    ensures Sanitize(s) == s <==> IsSafe(s)
  {
    if IsSafe(s) {
      var r := Sanitize(s);
      assert forall i :: 0 <= i < |s| ==> r[i] == s[i];
    }
  }

  /** Sanitising twice is sanitising once. */
  lemma SanitizeIdempotent(s: string)
    ensures Sanitize(Sanitize(s)) == Sanitize(s)
  {
    SanitizeFixedPoints(Sanitize(s));
  }

  /** A sanitised segment holds no path separator and no dot, so it can be
      neither `.` nor `..` nor contain a deeper path. */
  lemma SanitizedSegmentIsPlain(s: string)
    ensures '/' !in Sanitize(s)
    ensures '.' !in Sanitize(s)
    ensures Sanitize(s) != "." && Sanitize(s) != ".."
  {
    var r := Sanitize(s);
    assert forall i :: 0 <= i < |r| ==> r[i] != '.' && r[i] != '/';
    assert ".."[0] == '.';
    assert "."[0] == '.';
  }

  /** Two strings agree wherever either of them holds a letter or digit:
      they differ only in which other characters they contain. */
  predicate AlnumAgree(a: string, b: string) {
    && |a| == |b|
    && forall i :: 0 <= i < |a| && (IsAlnum(a[i]) || IsAlnum(b[i])) ==> a[i] == b[i]
  }

  /** Exactly the strings that agree on their letters and digits (and have
      the same length) sanitise to the same segment. */
  lemma SanitizeCollision(a: string, b: string)
    ensures Sanitize(a) == Sanitize(b) <==> AlnumAgree(a, b)
  {
    var ra, rb := Sanitize(a), Sanitize(b);
    if ra == rb {
      forall i | 0 <= i < |a| && (IsAlnum(a[i]) || IsAlnum(b[i]))
        ensures a[i] == b[i]
      {
        assert ra[i] == rb[i];
      }
    }
    if AlnumAgree(a, b) {
      assert forall i :: 0 <= i < |ra| ==> ra[i] == rb[i];
    }
  }

  /** The key for a parsed address. */
  function DeriveKey(p: UrlParts): (k: Key)
    ensures IsSafe(k.host) && IsSafe(k.path)
    ensures |k.host| == |p.hostname| && |k.path| == |p.pathname|
  {
    Key(Sanitize(p.hostname), Sanitize(p.pathname))
  }

  /** Two addresses share a key exactly when their host names agree on
      letters and digits and so do their paths; protocol, query and
      fragment play no part. */
  lemma SameKey(p1: UrlParts, p2: UrlParts)
    ensures DeriveKey(p1) == DeriveKey(p2)
      <==> AlnumAgree(p1.hostname, p2.hostname) && AlnumAgree(p1.pathname, p2.pathname)
  {
    SanitizeCollision(p1.hostname, p2.hostname);
    SanitizeCollision(p1.pathname, p2.pathname);
  }

  /** Paths that differ only in punctuation collide: `/a-b` and `/a_b`. */
  lemma PunctuationCollides(p: UrlParts)
    requires p.pathname == "/a-b"
    ensures DeriveKey(p) == DeriveKey(p.(pathname := "/a_b"))
    ensures DeriveKey(p).path == "_a_b"
  {
    var a, b := "/a-b", "/a_b";
    assert !IsAlnum(a[0]) && IsAlnum(a[1]) && !IsAlnum(a[2]) && IsAlnum(a[3]);
    assert !IsAlnum(b[0]) && IsAlnum(b[1]) && !IsAlnum(b[2]) && IsAlnum(b[3]);
    SanitizeCollision(a, b);
    var r := Sanitize(a);
    assert r == "_a_b" by {
      assert r[0] == '_' && r[1] == 'a' && r[2] == '_' && r[3] == 'b';
    }
  }

  // ----- directory layout -----

  const Separator: char := '/'

  /** The file name of every snapshot inside its directory. */
  const IndexFile: string := "index.html"

  /** `path.join` of segments, without platform normalisation. */
  function Join(segs: seq<string>): (r: string)
    // the joined path starts with the first segment, followed by a
    // separator when more segments come
    ensures |segs| >= 1 ==> |segs[0]| <= |r| && r[..|segs[0]|] == segs[0]
    ensures |segs| >= 2 ==> |segs[0]| < |r| && r[|segs[0]|] == Separator
    decreases |segs|
  {
    if |segs| == 0 then ""
    else if |segs| == 1 then segs[0]
    else segs[0] + [Separator] + Join(segs[1..])
  }

  /** The segments of a `/`-separated path, empty segments included. */
  function Split(s: string): (r: seq<string>)
    ensures |r| >= 1
    decreases |s|
  {
    if |s| == 0 then [""]
    else
      var rest := Split(s[1..]);
      if s[0] == Separator then [""] + rest
      else [[s[0]] + rest[0]] + rest[1..]
  }

  lemma {:induction false} SplitSingle(a: string)
    requires Separator !in a
    ensures Split(a) == [a]
    decreases |a|
  {
    if |a| > 0 {
      SplitSingle(a[1..]);
      assert [a[0]] + a[1..] == a;
    }
  }

  lemma {:induction false} SplitAfterSegment(a: string, b: string)
    requires Separator !in a
    ensures Split(a + [Separator] + b) == [a] + Split(b)
    decreases |a|
  {
    var s := a + [Separator] + b;
    if |a| == 0 {
      assert s[0] == Separator && s[1..] == b;
    } else {
      assert s[0] == a[0];
      assert s[1..] == a[1..] + [Separator] + b;
      SplitAfterSegment(a[1..], b);
      assert [a[0]] + a[1..] == a;
    }
  }

  /** Splitting undoes joining, as long as no segment holds a separator. */
  lemma {:induction false} SplitJoin(segs: seq<string>)
    requires |segs| >= 1
    requires forall i :: 0 <= i < |segs| ==> Separator !in segs[i]
    ensures Split(Join(segs)) == segs
    decreases |segs|
  {
    if |segs| == 1 {
      SplitSingle(segs[0]);
    } else {
      SplitAfterSegment(segs[0], Join(segs[1..]));
      SplitJoin(segs[1..]);
      assert [segs[0]] + segs[1..] == segs;
    }
  }

  lemma JoinTwo(a: string, b: string)
    ensures Join([a, b]) == a + [Separator] + b
  {
    assert [a, b][1..] == [b];
  }

  lemma JoinThree(a: string, b: string, c: string)
    ensures Join([a, b, c]) == a + [Separator] + (b + [Separator] + c)
  {
    assert [a, b, c][1..] == [b, c];
    JoinTwo(b, c);
  }

  /** `siteDir` of line 88. */
  function SiteDir(root: string, k: Key): (d: string)
    // a directory below the storage root, named by the key's path segment
    ensures |root| < |d| && d[..|root| + 1] == root + [Separator]
    ensures |d| == |root| + |k.host| + |k.path| + 2
  {
    JoinThree(root, k.host, k.path);
    Join([root, k.host, k.path])
  }

  /** `siteFile` of line 89. */
  function SiteFile(root: string, k: Key): (f: string)
    // the file `index.html` inside the key's site directory
    ensures f == SiteDir(root, k) + [Separator] + IndexFile
    ensures f[..|root| + 1] == root + [Separator]
  {
    JoinTwo(SiteDir(root, k), IndexFile);
    Join([SiteDir(root, k), IndexFile])
  }

  /** The part of a snapshot's file name below the storage root. */
  function Relative(k: Key): string {
    Join([k.host, k.path, IndexFile])
  }

  lemma SiteFileIsRootThenRelative(root: string, k: Key)
    ensures SiteFile(root, k) == root + [Separator] + Relative(k)
    ensures SiteDir(root, k) == root + [Separator] + Join([k.host, k.path])
  {
    var sep := [Separator];
    JoinTwo(k.host, k.path);
    JoinThree(root, k.host, k.path);
    JoinThree(k.host, k.path, IndexFile);
    assert root + sep + (k.host + sep + k.path) + sep + IndexFile
      == root + sep + (k.host + sep + (k.path + sep + IndexFile));
  }

  lemma IndexFileIsPlain()
    ensures Separator !in IndexFile
  {
    assert forall i :: 0 <= i < |IndexFile| ==> IndexFile[i] != Separator;
  }

  /** The snapshot file of a derived key lies below the storage root: its
      name is the root, a separator, and exactly three further segments
      (safe host, safe path, `index.html`), none of which is `.` or `..`. */
  lemma SiteFileUnderRoot(root: string, p: UrlParts)
    ensures var k := DeriveKey(p);
      && SiteFile(root, k) == root + [Separator] + Relative(k)
      && Split(Relative(k)) == [k.host, k.path, IndexFile]
      && k.host != ".." && k.path != ".." && k.host != "." && k.path != "."
  {
    var k := DeriveKey(p);
    SiteFileIsRootThenRelative(root, k);
    SanitizedSegmentIsPlain(p.hostname);
    SanitizedSegmentIsPlain(p.pathname);
    IndexFileIsPlain();
    SplitJoin([k.host, k.path, IndexFile]);
  }

  /** Under one storage root, distinct keys never share a snapshot file. */
  lemma SiteFileInjective(root: string, p1: UrlParts, p2: UrlParts)
    ensures SiteFile(root, DeriveKey(p1)) == SiteFile(root, DeriveKey(p2))
      <==> DeriveKey(p1) == DeriveKey(p2)
  {
    var k1, k2 := DeriveKey(p1), DeriveKey(p2);
    SiteFileUnderRoot(root, p1);
    SiteFileUnderRoot(root, p2);
    if SiteFile(root, k1) == SiteFile(root, k2) {
      var n := |root| + 1;
      assert Relative(k1) == SiteFile(root, k1)[n..];
      assert Relative(k2) == SiteFile(root, k2)[n..];
    }
  }

  /** No snapshot file is the directory of another key, so a present
      `index.html` is always a snapshot and never a directory. */
  lemma SiteFileIsNoSiteDir(root: string, p1: UrlParts, p2: UrlParts)
    ensures SiteFile(root, DeriveKey(p1)) != SiteDir(root, DeriveKey(p2))
  {
    var k1, k2 := DeriveKey(p1), DeriveKey(p2);
    SiteFileUnderRoot(root, p1);
    SiteFileIsRootThenRelative(root, k2);
    SanitizedSegmentIsPlain(p2.hostname);
    SanitizedSegmentIsPlain(p2.pathname);
    SplitJoin([k2.host, k2.path]);
    assert Relative(k1) != Join([k2.host, k2.path]) by {
      assert |Split(Relative(k1))| != |Split(Join([k2.host, k2.path]))|;
    }
    var n := |root| + 1;
    assert SiteFile(root, k1)[n..] == Relative(k1);
    assert SiteDir(root, k2)[n..] == Join([k2.host, k2.path]);
  }

  lemma ExampleHost()
    ensures Sanitize("example.com") == "example_com"
  {
    var s := "example.com";
    var h := Sanitize(s);
    assert !IsAlnum(s[7]);
    assert forall i :: 0 <= i < |s| && i != 7 ==> IsAlnum(s[i]);
    assert forall i :: 0 <= i < |h| ==> h[i] == "example_com"[i];
  }

  lemma ExamplePath()
    ensures Sanitize("/play") == "_play"
  {
    var s := "/play";
    var q := Sanitize(s);
    assert !IsAlnum(s[0]);
    assert forall i :: 1 <= i < |s| ==> IsAlnum(s[i]);
    assert forall i :: 0 <= i < |q| ==> q[i] == "_play"[i];
  }

  /** A worked example: `example.com/play` is stored at
      `saved_sites/example_com/_play/index.html`. The leading `/` of the
      path is sanitised too, so the path segment starts with `_`. */
  lemma ExampleLayout(p: UrlParts)
    requires p.hostname == "example.com" && p.pathname == "/play"
    ensures DeriveKey(p) == Key("example_com", "_play")
    ensures SiteFile("saved_sites", DeriveKey(p))
      == "saved_sites" + "/" + "example_com" + "/" + "_play" + "/" + IndexFile
  {
    ExampleHost();
    ExamplePath();
    var k := Key("example_com", "_play");
    JoinThree("saved_sites", k.host, k.path);
  }

  lemma CommentExampleHost()
    ensures Sanitize("crazygames.com") == "crazygames_com"
  {
    var s := "crazygames.com";
    var h := Sanitize(s);
    assert !IsAlnum(s[10]);
    assert forall i :: 0 <= i < |s| && i != 10 ==> IsAlnum(s[i]);
    assert forall i :: 0 <= i < |h| ==> h[i] == "crazygames_com"[i];
  }

  lemma CommentExamplePath()
    ensures Sanitize("/game-name") == "_game_name"
  {
    var s := "/game-name";
    var q := Sanitize(s);
    assert !IsAlnum(s[0]) && !IsAlnum(s[5]);
    assert forall i :: 0 <= i < |s| && i != 0 && i != 5 ==> IsAlnum(s[i]);
    assert forall i :: 0 <= i < |q| ==> q[i] == "_game_name"[i];
  }

  /** The example in the handler's comment: `crazygames.com/game-name` is
      stored at `saved_sites/crazygames_com/_game_name/index.html`, not at
      the `game_name` directory the comment names, because the path's
      leading `/` becomes `_` as well. */
  lemma CommentExampleLayout(p: UrlParts)
    requires p.hostname == "crazygames.com" && p.pathname == "/game-name"
    ensures DeriveKey(p) == Key("crazygames_com", "_game_name")
    ensures DeriveKey(p).path != "game_name"
    ensures SiteFile("saved_sites", DeriveKey(p))
      == "saved_sites" + "/" + "crazygames_com" + "/" + "_game_name" + "/" + IndexFile
  {
    CommentExampleHost();
    CommentExamplePath();
    var k := Key("crazygames_com", "_game_name");
    JoinThree("saved_sites", k.host, k.path);
    assert |k.path| != |"game_name"|;
  }
}
