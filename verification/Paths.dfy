/** The path helpers of the VFS, and how splitting a path commutes with joining. */
module Paths {
  import opened Common
  import opened RamFs

  // ---------------------------------------------------------------------
  // String primitives
  // ---------------------------------------------------------------------

  function TrimEnd(s: string): (r: string)
    ensures r <= s && (r == "" || r[|r| - 1] != '/')
  {
    if s != "" && s[|s| - 1] == '/' then TrimEnd(s[..|s| - 1]) else s
  }

  function TrimStart(s: string): string {
    if s != "" && s[0] == '/' then TrimStart(s[1..]) else s
  }

  /** Position of the first '/', or the length. */
  function FirstSlash(s: string): (k: nat)
    ensures k <= |s| && '/' !in s[..k] && (k < |s| ==> s[k] == '/')
  {
    if s == "" || s[0] == '/' then 0
    else
      var k := FirstSlash(s[1..]);
      assert s[..k + 1] == [s[0]] + s[1..][..k];
      k + 1
  }

  /** `split('/')` */
  function Split(s: string): seq<string>
    decreases |s|
  {
    var k := FirstSlash(s);
    if k == |s| then [s] else [s[..k]] + Split(s[k + 1..])
  }

  predicate Skipped(c: string) { c == "" || c == "." }

  function Kept(cs: seq<string>): seq<string> {
    if cs == [] then []
    else (if Skipped(cs[0]) then [] else [cs[0]]) + Kept(cs[1..])
  }

  /** The components `resolve` looks up: the pieces between slashes, without
      empty ones and ".". */
  function Components(s: string): seq<string> {
    Kept(Split(s))
  }

  // ---------------------------------------------------------------------
  // Helpers of vfs.rs
  // ---------------------------------------------------------------------

  function NormalizeMountPath(p: string): string {
    if p == "/" then "/" else TrimEnd(p)
  }

  /** No trailing slash, except for "/" itself. */
  predicate Normal(m: string) {
    m == "/" || m == "" || m[|m| - 1] != '/'
  }

  predicate StartsWithMount(path: string, mount: string) {
    if mount == "/" then true
    else if !(mount <= path) then false
    else
      var after := path[|mount|..];
      after == "" || after[0] == '/'
  }

  function LastSlash(s: string): (k: nat)
    requires '/' in s
    ensures k < |s| && s[k] == '/' && '/' !in s[k + 1..]
  {
    if s[|s| - 1] == '/' then |s| - 1
    else
      var k := LastSlash(s[..|s| - 1]);
      assert s[k + 1..] == s[..|s| - 1][k + 1..] + [s[|s| - 1]];
      k
  }

  /** The directory part and the last name of an absolute path; the root has
      neither. */
  function SplitParent(path: string): Result<(string, string), FsError> {
    if path == "" || path[0] != '/' then Err(InvalidPath)
    else
      var trimmed := TrimEnd(path);
      if trimmed == "" then Err(InvalidPath)
      else if '/' !in trimmed then Err(InvalidPath)
      else
        var k := LastSlash(trimmed);
        var parent, name := trimmed[..k], trimmed[k + 1..];
        if name == "" then Err(InvalidPath)
        else if parent == "" then Ok(("/", name))
        else Ok((parent, name))
  }

  // ---------------------------------------------------------------------
  // Splitting and joining
  // ---------------------------------------------------------------------

  lemma FirstSlashJoin(a: string, b: string)
    ensures FirstSlash(a + "/" + b) == FirstSlash(a)
    decreases |a|
  {
    if a == "" {
      assert a + "/" + b == "/" + b;
    } else if a[0] != '/' {
      assert (a + "/" + b)[1..] == a[1..] + "/" + b;
      FirstSlashJoin(a[1..], b);
    }
  }

  lemma {:induction false} SplitJoin(a: string, b: string)
    ensures Split(a + "/" + b) == Split(a) + Split(b)
    decreases |a|
  {
    var s := a + "/" + b;
    var k := FirstSlash(a);
    FirstSlashJoin(a, b);
    assert s[..k] == a[..k];
    if k == |a| {
      assert s[k + 1..] == b && a[..k] == a;
      assert Split(a) == [a];
    } else {
      assert s[k + 1..] == a[k + 1..] + "/" + b;
      SplitJoin(a[k + 1..], b);
    }
  }

  lemma {:induction false} KeptJoin(a: seq<string>, b: seq<string>)
    ensures Kept(a + b) == Kept(a) + Kept(b)
  {
    if a == [] {
      assert a + b == b;
    } else {
      assert (a + b)[1..] == a[1..] + b;
      KeptJoin(a[1..], b);
    }
  }

  /** Joining with a slash concatenates the components. */
  lemma ComponentsJoin(a: string, b: string)
    ensures Components(a + "/" + b) == Components(a) + Components(b)
  {
    SplitJoin(a, b);
    KeptJoin(Split(a), Split(b));
  }

  lemma ComponentsLeadingSlash(b: string)
    ensures Components("/" + b) == Components(b)
  {
    ComponentsJoin("", b);
    assert "" + "/" + b == "/" + b;
    assert Split("") == [""];
    assert Kept([""]) == [];
  }

  lemma {:induction false} ComponentsTrimStart(s: string)
    ensures Components(TrimStart(s)) == Components(s)
    decreases |s|
  {
    if s != "" && s[0] == '/' {
      assert s == "/" + s[1..];
      ComponentsLeadingSlash(s[1..]);
      ComponentsTrimStart(s[1..]);
    }
  }

  lemma {:induction false} ComponentsTrimEnd(s: string)
    ensures Components(TrimEnd(s)) == Components(s)
    decreases |s|
  {
    if s != "" && s[|s| - 1] == '/' {
      var t := s[..|s| - 1];
      assert s == t + "/" + "";
      ComponentsJoin(t, "");
      assert Split("") == [""];
      assert Kept([""]) == [];
      ComponentsTrimEnd(t);
    }
  }

  lemma ComponentsOfName(name: string)
    requires '/' !in name
    ensures Components(name) == if Skipped(name) then [] else [name]
  {
    assert FirstSlash(name) == |name|;
    assert Split(name) == [name];
    assert [name][1..] == [] && Kept([]) == [];
    assert Kept([name]) == (if Skipped(name) then [] else [name]) + Kept([name][1..]);
  }

  /** No component is empty or ".", and none contains a slash. */
  lemma {:induction false} ComponentsAreNames(s: string)
    ensures forall c | c in Components(s) :: c != "" && c != "." && '/' !in c
    decreases |s|
  {
    var k := FirstSlash(s);
    if k == |s| {
      assert s[..k] == s;
      ComponentsOfName(s);
    } else {
      assert s == s[..k] + "/" + s[k + 1..];
      ComponentsJoin(s[..k], s[k + 1..]);
      ComponentsOfName(s[..k]);
      ComponentsAreNames(s[k + 1..]);
    }
  }

  // ---------------------------------------------------------------------
  // A path and its parent
  // ---------------------------------------------------------------------

  ghost predicate AllSlashes(s: string) {
    forall i | 0 <= i < |s| :: s[i] == '/'
  }

  lemma {:induction false} TrimmedRest(s: string)
    ensures AllSlashes(s[|TrimEnd(s)|..])
    decreases |s|
  {
    if s != "" && s[|s| - 1] == '/' {
      var t := s[..|s| - 1];
      TrimmedRest(t);
      assert s[|TrimEnd(s)|..] == t[|TrimEnd(s)|..] + [s[|s| - 1]];
    }
  }

  lemma NoComponents()
    ensures Components("") == []
  {
    ComponentsOfName("");
  }

  /** Trailing slashes add no components. */
  lemma {:induction false} ComponentsThenSlashes(a: string, b: string)
    requires AllSlashes(b)
    ensures Components(a + b) == Components(a)
    decreases |b|
  {
    if b == "" {
      assert a + b == a;
    } else {
      var c := b[..|b| - 1];
      assert a + b == (a + c) + "/" + "";
      ComponentsJoin(a + c, "");
      NoComponents();
      ComponentsThenSlashes(a, c);
    }
  }

  /** `path` is `q/name` plus trailing slashes, and `parent` is `q` or "/". */
  ghost predicate Shape(path: string, t: string, q: string, parent: string, name: string) {
    && t <= path && AllSlashes(path[|t|..])
    && t == q + "/" + name && '/' !in name && name != ""
    && parent == (if q == "" then "/" else q)
    && parent != "" && parent[0] == '/'
  }

  lemma SplitShape(path: string, parent: string, name: string) returns (q: string)
    requires SplitParent(path) == Ok((parent, name))
    ensures Shape(path, TrimEnd(path), q, parent, name) && path != "" && path[0] == '/' && TrimEnd(path) != ""
  {
    var t := TrimEnd(path);
    var k := LastSlash(t);
    TrimmedRest(path);
    q := t[..k];
    assert t == q + [t[k]] + t[k + 1..];
    assert q == "" || q[0] == path[0];
  }

  /** The text `resolve` walks inside a mount. */
  function Relative(path: string, mount: string): string
    requires path != "" && path[0] == '/' && StartsWithMount(path, mount)
  {
    TrimStart(if mount == "/" then path[1..] else path[|mount|..])
  }

  /** A normal mount covering the path is the trimmed path itself, or ends at a
      slash at or above the parent. */
  lemma MatchIsAbove(path: string, t: string, q: string, parent: string, name: string, m: string)
    requires Shape(path, t, q, parent, name) && Normal(m) && m != "/" && StartsWithMount(path, m)
    ensures m == t || (m <= q && (|m| < |q| ==> q[|m|] == '/'))
  {
    assert forall i | |t| <= i < |path| :: path[i] == path[|t|..][i - |t|];
    assert forall i | |q| < i < |t| :: t[i] == name[i - |q| - 1];
  }

  /** Every mount other than one at the path itself covers the path exactly when
      it covers the parent. */
  lemma ParentMatches(path: string, t: string, q: string, parent: string, name: string, m: string)
    requires Shape(path, t, q, parent, name) && Normal(m) && m != t
    ensures StartsWithMount(path, m) <==> StartsWithMount(parent, m)
  {
    if m != "/" && StartsWithMount(path, m) {
      MatchIsAbove(path, t, q, parent, name, m);
    }
    if m != "/" && StartsWithMount(parent, m) {
      if q == "" {
        assert m == "" || m == "/";
        assert path[0] == t[0] == '/';
      } else {
        assert path[|m|] == t[|m|] == if |m| < |q| then q[|m|] else '/';
      }
    }
  }

  /** Inside a common mount, a path walks its parent's components and then its
      own name. */
  lemma ParentComponents(path: string, t: string, q: string, parent: string, name: string, m: string)
    requires Shape(path, t, q, parent, name) && path != "" && path[0] == '/'
    requires Normal(m) && m != t && StartsWithMount(path, m)
    ensures StartsWithMount(parent, m)
    ensures Components(Relative(path, m)) == Components(Relative(parent, m)) + Components(name)
  {
    ParentMatches(path, t, q, parent, name, m);
    if m != "/" {
      MatchIsAbove(path, t, q, parent, name, m);
    }
    var rest := path[|t|..];
    assert path == q + "/" + name + rest;
    hide Components, StartsWithMount, TrimStart, Shape;
    if m == "/" {
      ComponentsTrimStart(path[1..]);
      ComponentsTrimStart(parent[1..]);
      BelowRoot(path, q, parent, name, rest);
    } else {
      ComponentsTrimStart(path[|m|..]);
      ComponentsTrimStart(parent[|m|..]);
      BelowMount(path, q, parent, name, rest, |m|);
    }
  }

  lemma BelowRoot(path: string, q: string, parent: string, name: string, rest: string)
    requires path == q + "/" + name + rest && AllSlashes(rest) && parent == (if q == "" then "/" else q)
    ensures Components(path[1..]) == Components(parent[1..]) + Components(name)
  {
    hide Components;
    if q == "" {
      assert path[1..] == name + rest && parent[1..] == "";
      ComponentsThenSlashes(name, rest);
      NoComponents();
    } else {
      assert path[1..] == (q[1..] + "/" + name) + rest;
      ComponentsThenSlashes(q[1..] + "/" + name, rest);
      ComponentsJoin(q[1..], name);
    }
  }

  lemma BelowMount(path: string, q: string, parent: string, name: string, rest: string, j: nat)
    requires path == q + "/" + name + rest && AllSlashes(rest) && parent == (if q == "" then "/" else q) && j <= |q|
    ensures Components(path[j..]) == Components(parent[j..]) + Components(name)
  {
    hide Components;
    assert path[j..] == (q[j..] + "/" + name) + rest;
    ComponentsThenSlashes(q[j..] + "/" + name, rest);
    ComponentsJoin(q[j..], name);
    if q == "" {
      assert parent[0..] == "/" + "";
      ComponentsLeadingSlash("");
    }
  }

  /** A path that is a mount point leaves nothing to walk. */
  lemma NothingBelowMount(path: string, t: string)
    requires path != "" && path[0] == '/' && t != "" && t != "/" && t <= path && AllSlashes(path[|t|..])
    ensures StartsWithMount(path, t) && Components(Relative(path, t)) == []
  {
    ComponentsTrimStart(path[|t|..]);
    NoComponents();
    ComponentsThenSlashes("", path[|t|..]);
    assert "" + path[|t|..] == path[|t|..];
  }
}
