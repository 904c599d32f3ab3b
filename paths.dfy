/**
 * The POSIX path operations the gear uses, on path strings: `os.path.join`
 * for two components, the last component (`f.split("/")[-1]`, `Path(f).name`)
 * and the directory part before it.
 */
module Paths {
  import opened Text

  /** `os.path.join(a, b)`: an absolute `b` wins; otherwise one `/` is put between them when needed. */
  function PathJoin(a: string, b: string): string {
    if |b| > 0 && b[0] == '/' then b
    else if a == "" || EndsWith(a, "/") then a + b
    else a + "/" + b
  }

  /** The text after the last `/` (all of `p` when it has none). */
  function Basename(p: string): string {
    var parts := Split(p, '/');
    parts[|parts| - 1]
  }

  /** The last component holds no `/`. */
  lemma BasenameHasNoSlash(p: string)
    ensures '/' !in Basename(p)
  {
    SplitPiecesFree(p, '/');
  }

  /** The text before the last `/` (empty when `p` has none). */
  function DirPart(p: string): string {
    var parts := Split(p, '/');
    Join(parts[..|parts| - 1], "/")
  }

  /** `p` with its last component replaced by `name`, its directory part kept. */
  function WithBasename(p: string, name: string): string {
    if '/' in p then DirPart(p) + "/" + name else name
  }

  /**
   * Renaming the last component of a path to a name without `/` keeps its
   * directory part and makes that name its last component.
   */
  lemma {:induction false} WithBasenameKeepsDir(p: string, name: string)
    requires '/' !in name
    ensures Basename(WithBasename(p, name)) == name
    ensures DirPart(WithBasename(p, name)) == DirPart(p)
  {
    if '/' in p {
      var parts := Split(p, '/');
      var k := |parts| - 1;
      var dir := DirPart(p);
      if k == 0 {
        JoinSplit(p, '/');
        SplitPiecesFree(p, '/');
        assert false;
      }
      SplitPiecesFree(p, '/');
      SplitJoin(parts[..k], '/');
      SplitAround(dir, '/', name);
      SplitFree(name, '/');
      var q := Split(dir + "/" + name, '/');
      assert q == parts[..k] + [name];
      assert q[..|q| - 1] == parts[..k];
    } else {
      SplitFree(name, '/');
      SplitFree(p, '/');
    }
  }

  /** The last component of `os.path.join(a, b)` is `b` when `b` has no `/`. */
  lemma JoinBasename(a: string, b: string)
    requires '/' !in b
    ensures Basename(PathJoin(a, b)) == b
  {
    assert !(|b| > 0 && b[0] == '/') by {
      if |b| > 0 {
        assert b[0] in b;
      }
    }
    if a == "" {
      assert PathJoin(a, b) == b;
      SplitFree(b, '/');
    } else if EndsWith(a, "/") {
      var a' := a[..|a| - 1];
      assert a == a' + "/";
      assert a + b == a' + ['/'] + b;
      SplitLastAfter(a', '/', b);
    } else {
      SplitLastAfter(a, '/', b);
    }
  }

  /** Joining a relative component keeps every occurrence already in the first path. */
  lemma JoinKeepsContains(a: string, b: string, w: string)
    requires Contains(a, w)
    requires !(|b| > 0 && b[0] == '/')
    ensures Contains(PathJoin(a, b), w)
  {
    if a == "" || EndsWith(a, "/") {
      ContainsAppend(a, b, w);
    } else {
      ContainsAppend(a, "/" + b, w);
      assert a + ("/" + b) == a + "/" + b;
    }
  }

  /** The joined path holds every occurrence in the component joined on. */
  lemma JoinAddsContains(a: string, b: string, w: string)
    requires Contains(b, w)
    ensures Contains(PathJoin(a, b), w)
  {
    if |b| > 0 && b[0] == '/' {
    } else if a == "" || EndsWith(a, "/") {
      ContainsSuffix(a, b, w);
    } else {
      ContainsSuffix(a + "/", b, w);
    }
  }

  /** A pattern without `/` occurs in a join only where it occurs in one of the two parts. */
  lemma JoinContains(a: string, b: string, w: string)
    requires '/' !in w
    ensures Contains(PathJoin(a, b), w) ==> Contains(a, w) || Contains(b, w)
  {
    if |b| > 0 && b[0] == '/' {
    } else if a == "" {
      assert a + b == b;
    } else if EndsWith(a, "/") {
      var a' := a[..|a| - 1];
      assert a == a' + "/";
      assert a + b == a' + ['/'] + b;
      if Contains(a' + ['/'] + b, w) {
        ContainsAround(a', '/', b, w);
        if Contains(a', w) {
          ContainsAppend(a', "/", w);
        }
      }
    } else {
      if Contains(a + ['/'] + b, w) {
        ContainsAround(a, '/', b, w);
      }
    }
  }

  /** Joining a relative `b` onto `x/a` is joining it onto `a` under `x`. */
  lemma JoinUnder(x: string, a: string, b: string)
    requires |a| > 0 && !(|b| > 0 && b[0] == '/')
    ensures PathJoin(x + "/" + a, b) == x + "/" + PathJoin(a, b)
  {
    var xa := x + "/" + a;
    assert xa[|xa| - 1] == a[|a| - 1];
    assert EndsWith(xa, "/") <==> EndsWith(a, "/");
  }

  /** Appending to a relative component before or after joining is the same. */
  lemma JoinThenAppend(a: string, b: string, ext: string)
    requires |b| > 0 && b[0] != '/'
    ensures PathJoin(a, b) + ext == PathJoin(a, b + ext)
  {
    assert (b + ext)[0] == b[0];
  }

  /** The directory part and last component of `x + "/" + name`, for a name without `/`. */
  lemma PartsOfPath(x: string, name: string)
    requires '/' !in name
    ensures DirPart(x + "/" + name) == x
    ensures Basename(x + "/" + name) == name
  {
    SplitAround(x, '/', name);
    SplitFree(name, '/');
    var parts := Split(x + "/" + name, '/');
    assert parts == Split(x, '/') + [name];
    assert parts[..|parts| - 1] == Split(x, '/');
    JoinSplit(x, '/');
  }
}
