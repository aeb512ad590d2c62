/** The `owner/repo` guard at the top of every fetch hook:
    `const [owner, repo] = repoPath.split('/')` followed by
    `if (!owner || !repo) throw new Error(...)`. */
module Identifier {
  import opened Wrappers
  import Text

  datatype RepoId = RepoId(owner: string, name: string)

  /** The destructuring of `repoPath.split('/')` into its first two pieces;
      the second is `undefined` when there is no slash. */
  function FirstTwo(path: string): (string, Option<string>) {
    var pieces := Text.Split(path, '/');
    if |pieces| == 1 then (pieces[0], None) else (pieces[0], Some(pieces[1]))
  }

  /** The guard as a total function: the identifier when both pieces are
      non-empty, `None` when the hook throws "Invalid format". */
  function Parse(path: string): (r: Option<RepoId>)
    ensures r.Some? ==> r.value.owner != "" && r.value.name != ""
    ensures r.Some? ==> '/' !in r.value.owner && '/' !in r.value.name
  {
    var (owner, repo) := FirstTwo(path);
    if owner == "" || repo.None? || repo.value == "" then None
    else Some(RepoId(owner, repo.value))
  }

  /** The pages' weaker pre-check, `repoPath.includes('/')`. */
  predicate HasSlash(path: string) {
    '/' in path
  }

  /** The guard accepts exactly the strings with a non-empty run before the
      first slash and a non-empty run after it. */
  predicate WellFormed(path: string) {
    '/' in path &&
    var i := Text.IndexOf(path, '/');
    0 < i && i + 1 < |path| && path[i + 1] != '/'
  }

  /** The first piece of a split ends at the first separator, and the second
      piece is empty exactly when nothing or another separator follows it. */
  lemma {:induction false} SplitPieces(path: string)
    requires '/' in path
    ensures var i := Text.IndexOf(path, '/');
      var pieces := Text.Split(path, '/');
      |pieces| >= 2 && pieces[0] == path[..i] &&
      (pieces[1] == "" <==> (i + 1 == |path| || path[i + 1] == '/'))
  {
    var i := Text.IndexOf(path, '/');
    var tail := path[i + 1..];
    var pieces := Text.Split(path, '/');
    assert pieces[1..] == Text.Split(tail, '/');
    if '/' in tail {
      var j := Text.IndexOf(tail, '/');
      assert pieces[1] == tail[..j];
      assert j == 0 <==> tail[0] == '/';
    }
  }

  /** `Parse` succeeds exactly on the well-formed strings. */
  lemma {:induction false} ParseIffWellFormed(path: string)
    ensures Parse(path).Some? <==> WellFormed(path)
  {
    if '/' in path {
      SplitPieces(path);
    }
  }

  /** Whatever `Parse` accepts reads `owner/name`, followed by nothing or by
      further slash-separated pieces that the hooks ignore. */
  lemma {:induction false} ParseSound(path: string)
    requires Parse(path).Some?
    ensures var id := Parse(path).value;
      exists rest :: path == id.owner + "/" + id.name + rest && (rest == "" || rest[0] == '/')
  {
    var id := Parse(path).value;
    var pieces := Text.Split(path, '/');
    var rest := RestAfterTwo(pieces);
    assert path == id.owner + "/" + id.name + rest by {
      Text.JoinSplit(path, '/');
      JoinFirstTwo(pieces);
    }
  }

  /** What follows the second piece when a split is joined back. */
  function RestAfterTwo(pieces: seq<string>): (rest: string)
    requires |pieces| >= 2
    ensures rest == "" || rest[0] == '/'
  {
    if |pieces| == 2 then "" else "/" + Text.Join(pieces[2..], '/')
  }

  /** Joining a split of two or more pieces spells the first two around a
      slash, followed by the rest. */
  lemma {:induction false} JoinFirstTwo(pieces: seq<string>)
    requires |pieces| >= 2
    ensures Text.Join(pieces, '/') == pieces[0] + "/" + pieces[1] + RestAfterTwo(pieces)
  {
    assert pieces[1..][0] == pieces[1];
    assert pieces[1..][1..] == pieces[2..];
    if |pieces| == 2 {
      assert pieces[1..] == [pieces[1]];
    }
  }

  /** A separator-free prefix that ends at a separator, or at the end, is the
      first piece of the split. */
  lemma {:induction false} FirstPiece(p: string, rest: string)
    requires '/' !in p
    requires rest == "" || rest[0] == '/'
    ensures Text.Split(p + rest, '/')[0] == p
    ensures rest != "" ==> |Text.Split(p + rest, '/')| >= 2
    ensures rest != "" ==> Text.Split(p + rest, '/')[1..] == Text.Split(rest[1..], '/')
  {
    if rest == "" {
      assert p + rest == p;
    } else {
      assert p + rest == p + ['/'] + rest[1..];
      Text.IndexAfterFreePrefix(p, rest[1..], '/');
      assert (p + rest)[..|p|] == p;
      assert (p + rest)[|p| + 1..] == rest[1..];
    }
  }

  /** Round trip: `owner/name`, optionally followed by more pieces, parses back
      to that owner and name. */
  lemma {:induction false} ParseFormatted(owner: string, name: string, rest: string)
    requires owner != "" && name != ""
    requires '/' !in owner && '/' !in name
    requires rest == "" || rest[0] == '/'
    ensures Parse(owner + "/" + name + rest) == Some(RepoId(owner, name))
  {
    var path := owner + "/" + name + rest;
    assert path == owner + "/" + (name + rest);
    var pieces := Text.Split(path, '/');
    OwnerPiece(owner, name + rest);
    FirstPiece(name, rest);
    assert pieces[1] == pieces[1..][0];
    assert FirstTwo(path) == (owner, Some(name));
  }

  /** A separator-free owner and a slash start the split of `owner/tail`. */
  lemma {:induction false} OwnerPiece(owner: string, tail: string)
    requires '/' !in owner
    ensures var pieces := Text.Split(owner + "/" + tail, '/');
      |pieces| >= 2 && pieces[0] == owner && pieces[1..] == Text.Split(tail, '/')
  {
    var after := "/" + tail;
    assert owner + "/" + tail == owner + after;
    assert after[1..] == tail;
    FirstPiece(owner, after);
  }

  /** The guard is strictly stronger than the pages' pre-check: every
      accepted identifier has a slash, but `"a/"` has a slash and is refused. */
  lemma {:induction false} GuardStrongerThanSlashCheck(path: string)
    ensures Parse(path).Some? ==> HasSlash(path)
    ensures HasSlash("a/") && Parse("a/") == None
  {
    assert Text.Split("a/", '/') == ["a", ""] by {
      assert Text.IndexOf("a/", '/') == 1;
      assert "a/"[..1] == "a";
      assert "a/"[2..] == "";
      assert Text.Split("", '/') == [""];
    }
  }

  /** Only the first two pieces matter: `"a/b/c"` names owner `a`, repository `b`. */
  lemma {:induction false} ExtraPiecesIgnored()
    ensures Parse("a/b/c") == Some(RepoId("a", "b"))
  {
    ParseFormatted("a", "b", "/c");
    assert "a" + "/" + "b" + "/c" == "a/b/c";
  }
}
