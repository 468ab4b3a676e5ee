/** The directories leading to a path, as `add_dir` of tools/boot/add-bgrt-override.py makes them. */
module PathChain {
  import opened Text

  /** The proper ancestors of a path: its non-empty beginnings up to a slash. */
  function Ancestors(path: string): set<string> {
    set i | 0 < i < |path| && path[i] == '/' :: path[..i]
  }

  function Links(path: string): (n: nat)
    ensures n >= 1
  {
    |Split(path, '/')|
  }

  /** `'/'.join(path.split('/')[:i + 1])` */
  function Link(path: string, i: nat): string
    requires i < Links(path)
  {
    Join(Split(path, '/')[..i + 1], "/")
  }

  /** What follows the path's first slash. */
  function Rest(path: string): (r: string)
    requires Links(path) > 1
    ensures |r| < |path| && Links(r) == Links(path) - 1
  {
    path[IndexOf(path, '/') + 1..]
  }

  lemma FirstLink(path: string)
    ensures Link(path, 0) == path[..IndexOf(path, '/')]
  {
    assert path[..|path|] == path;
    assert Split(path, '/')[..1] == [path[..IndexOf(path, '/')]];
  }

  lemma LaterLink(path: string, i: nat)
    requires 0 < i < Links(path)
    ensures Link(path, i) == path[..IndexOf(path, '/')] + "/" + Link(Rest(path), i - 1)
  {
    var parts := Split(path, '/');
    assert parts == [path[..IndexOf(path, '/')]] + Split(Rest(path), '/');
    assert parts[..i + 1] == [path[..IndexOf(path, '/')]] + Split(Rest(path), '/')[..i];
    JoinCons(path[..IndexOf(path, '/')], Split(Rest(path), '/')[..i], "/");
  }

  lemma SplitAtSlash(path: string)
    requires Links(path) > 1
    ensures path == path[..IndexOf(path, '/')] + "/" + Rest(path)
  {
    CutAround(path, IndexOf(path, '/'));
  }

  /** Each link is the path up to a slash, the last one the whole path. */
  lemma {:induction false} LinkIsPrefix(path: string, i: nat)
    requires i < Links(path)
    ensures |Link(path, i)| <= |path| && Link(path, i) == path[..|Link(path, i)|]
    ensures i == Links(path) - 1 ==> Link(path, i) == path
    ensures i < Links(path) - 1 ==> |Link(path, i)| < |path| && path[|Link(path, i)|] == '/'
    decreases |path|
  {
    if i == 0 {
      FirstLink(path);
    } else {
      var head, rest := path[..IndexOf(path, '/')] + "/", Rest(path);
      LinkIsPrefix(rest, i - 1);
      assert path == head + rest by { SplitAtSlash(path); }
      assert Link(path, i) == head + Link(rest, i - 1) by { LaterLink(path, i); }
      PrefixGrows(path, head, rest, Link(rest, i - 1), Link(path, i));
    }
  }

  lemma PrefixGrows(path: string, head: string, rest: string, l: string, link: string)
    requires path == head + rest && link == head + l && |l| <= |rest| && l == rest[..|l|]
    ensures |link| <= |path| && link == path[..|link|] && (l == rest ==> link == path)
    ensures |l| < |rest| && rest[|l|] == '/' ==> |link| < |path| && path[|link|] == '/'
  {
  }

  /** Every slash of the path is the end of some link. */
  lemma {:induction false} SlashEndsLink(path: string, at: nat) returns (i: nat)
    requires at < |path| && path[at] == '/'
    ensures i < Links(path) - 1 && Link(path, i) == path[..at]
    decreases |path|
  {
    var k := IndexOf(path, '/');
    if at == k {
      FirstLink(path);
      return 0;
    }
    assert at > k;
    var j := SlashEndsLink(Rest(path), at - k - 1);
    LaterLink(path, j + 1);
    SplitAtSlash(path);
    assert path[..at] == path[..k] + "/" + Rest(path)[..at - k - 1];
    return j + 1;
  }

  /** Links get longer. */
  lemma {:induction false} LinksGrow(path: string, i: nat, j: nat)
    requires i < j < Links(path)
    ensures |Link(path, i)| < |Link(path, j)|
    decreases |path|
  {
    LaterLink(path, j);
    if i == 0 {
      FirstLink(path);
    } else {
      LaterLink(path, i);
      LinksGrow(Rest(path), i - 1, j - 1);
    }
  }

  /** The ancestors of a link are links that come before it. */
  lemma AncestorsAreEarlier(path: string, i: nat, a: string)
    requires i < Links(path) && a in Ancestors(Link(path, i))
    ensures exists j: nat :: j < i && Link(path, j) == a
  {
    var link := Link(path, i);
    LinkIsPrefix(path, i);
    var at :| 0 < at < |link| && link[at] == '/' && a == link[..at];
    assert path[at] == '/' && path[..at] == a;
    var j := SlashEndsLink(path, at);
    if j > i { LinksGrow(path, i, j); }
  }

  /** The ancestors of a file directly inside `dir` are `dir` and the ancestors of `dir`. */
  lemma AncestorsInside(dir: string, file: string)
    requires dir != "" && '/' !in file
    ensures Ancestors(dir + "/" + file) == Ancestors(dir) + {dir}
  {
    var path := dir + "/" + file;
    forall a | a in Ancestors(path) ensures a in Ancestors(dir) + {dir} {
      var at :| 0 < at < |path| && path[at] == '/' && a == path[..at];
      SlashInside(dir, file, at);
    }
    SlashInside(dir, file, |dir|);
    forall a | a in Ancestors(dir) ensures a in Ancestors(path) {
      var at :| 0 < at < |dir| && dir[at] == '/' && a == dir[..at];
      SlashInside(dir, file, at);
    }
  }

  lemma SlashInside(dir: string, file: string, at: nat)
    requires '/' !in file && at < |dir + "/" + file|
    ensures var path := dir + "/" + file;
      && (path[at] == '/' ==> at <= |dir|)
      && (at == |dir| ==> path[at] == '/' && path[..at] == dir)
      && (at < |dir| ==> path[at] == dir[at] && path[..at] == dir[..at])
  {
    var path := dir + "/" + file;
    if at < |dir| { assert path[..at] == dir[..at]; }
    if at == |dir| { assert path[..at] == dir; }
  }
}
