/**
 * The two functions of Node's `path.posix` that the image store relies on,
 * agreeing with Node's results: `basename` (without a suffix argument)
 * and `extname`.
 */
module PosixPath {
  import opened Text

  // Each function below is stated without a postcondition; its properties
  // are separate lemmas, so that proofs about names that do not need them
  // do not carry them.

  /** Drops the trailing run of `/`. */
  function StripTrailingSlashes(p: string): string {
    if p != [] && p[|p| - 1] == '/' then StripTrailingSlashes(p[..|p| - 1]) else p
  }

  /** What is dropped is all `/`, and what is left does not end in one. */
  lemma {:induction false} StripTrailingSlashesSpec(p: string)
    ensures var r := StripTrailingSlashes(p);
      && |r| <= |p| && r == p[..|r|]
      && (forall i :: |r| <= i < |p| ==> p[i] == '/')
      && (r == [] || r[|r| - 1] != '/')
  {
    if p != [] && p[|p| - 1] == '/' {
      StripTrailingSlashesSpec(p[..|p| - 1]);
    }
  }

  /** The part of `p` after its last `/`: all of `p` when it has none. */
  function AfterLastSlash(p: string): string {
    if p == [] || p[|p| - 1] == '/' then [] else AfterLastSlash(p[..|p| - 1]) + [p[|p| - 1]]
  }

  lemma {:induction false} AfterLastSlashSpec(p: string)
    ensures var r := AfterLastSlash(p);
      && |r| <= |p| && r == p[|p| - |r|..]
      && '/' !in r
      && (|r| < |p| ==> p[|p| - |r| - 1] == '/')
  {
    if !(p == [] || p[|p| - 1] == '/') {
      var q := p[..|p| - 1];
      AfterLastSlashSpec(q);
      var r := AfterLastSlash(p);
      assert r == AfterLastSlash(q) + [p[|p| - 1]];
      assert q[|q| - |AfterLastSlash(q)|..] + [p[|p| - 1]] == p[|p| - |r|..];
    }
  }

  /** A string without `/` is all after its last `/`. */
  lemma {:induction false} AfterLastSlashWhole(p: string)
    requires '/' !in p
    ensures AfterLastSlash(p) == p
  {
    if p != [] {
      var q := p[..|p| - 1];
      assert '/' !in q by {
        forall i | 0 <= i < |q| ensures q[i] != '/' {
          assert q[i] == p[i];
        }
      }
      AfterLastSlashWhole(q);
      assert q + [p[|p| - 1]] == p;
    }
  }

  /**
   * `path.basename(p)`: the last non-empty component of `p`, ignoring
   * trailing slashes; empty when `p` is empty or made only of slashes.
   */
  function Basename(p: string): string {
    AfterLastSlash(StripTrailingSlashes(p))
  }

  lemma BasenameNoSlash(p: string)
    ensures '/' !in Basename(p)
  {
    AfterLastSlashSpec(StripTrailingSlashes(p));
  }

  /**
   * The traversal guard of the store rests on this: `basename` leaves a
   * string unchanged exactly when it contains no `/`.
   */
  lemma BasenameFixedIff(p: string)
    ensures Basename(p) == p <==> '/' !in p
  {
    BasenameNoSlash(p);
    if '/' !in p {
      assert StripTrailingSlashes(p) == p;
      AfterLastSlashWhole(p);
    }
  }

  /** The index of the last `.` of `s`, or -1 when there is none. */
  function LastDot(s: string): int {
    if s == [] then -1 else if s[|s| - 1] == '.' then |s| - 1 else LastDot(s[..|s| - 1])
  }

  lemma {:induction false} LastDotSpec(s: string)
    ensures var r := LastDot(s);
      && -1 <= r < |s|
      && (r >= 0 ==> s[r] == '.')
      && (forall j :: r < j < |s| ==> s[j] != '.')
  {
    if s != [] && s[|s| - 1] != '.' {
      LastDotSpec(s[..|s| - 1]);
    }
  }

  /** The last dot is at `k` when there is one at `k` and none after it. */
  lemma {:induction false} LastDotAt(s: string, k: nat)
    requires k < |s| && s[k] == '.' && forall j :: k < j < |s| ==> s[j] != '.'
    ensures LastDot(s) == k
  {
    if k < |s| - 1 {
      LastDotAt(s[..|s| - 1], k);
    }
  }

  /**
   * `extname` of one path component: the suffix from the last `.`, empty
   * when there is no dot, when the only leading dot is the first
   * character (`.jpg`), and for `..`.
   */
  function ComponentExtname(name: string): string {
    LastDotSpec(name);
    var k := LastDot(name);
    if k <= 0 || name == ".." then "" else name[k..]
  }

  lemma ComponentExtnameSpec(name: string)
    ensures var r := ComponentExtname(name);
      && (r == [] || (|r| < |name| && r == name[|name| - |r|..] && r[0] == '.'))
      && (forall j :: 0 < j < |r| ==> r[j] != '.')
  {
    LastDotSpec(name);
  }

  /** `path.extname(p)`: the extension of the last component of `p`. */
  function Extname(p: string): string {
    ComponentExtname(Basename(p))
  }

  /** On a name without `/` the extension is that of the name itself. */
  lemma ExtnameOfName(name: string)
    requires '/' !in name
    ensures Extname(name) == ComponentExtname(name)
  {
    BasenameFixedIff(name);
  }

  /** Folding case changes no dot, so it commutes with taking the extension. */
  lemma {:induction false} LastDotLower(s: string)
    ensures LastDot(ToLower(s)) == LastDot(s)
  {
    if s != [] {
      assert ToLower(s)[..|s| - 1] == ToLower(s[..|s| - 1]);
      LastDotLower(s[..|s| - 1]);
    }
  }

  lemma ExtnameLower(name: string)
    ensures ComponentExtname(ToLower(name)) == ToLower(ComponentExtname(name))
  {
    LastDotLower(name);
    LastDotSpec(name);
    assert ToLower(name) == ".." <==> name == "..";
    var k := LastDot(name);
    if k > 0 && name != ".." {
      assert ToLower(name)[k..] == ToLower(name[k..]);
    }
  }

  /** The extension of a name without upper-case letters is in lower case already. */
  lemma LowerNameExtname(name: string)
    requires '/' !in name && forall j :: 0 <= j < |name| ==> !('A' <= name[j] <= 'Z')
    ensures ToLower(Extname(name)) == Extname(name)
  {
    ExtnameOfName(name);
    ExtnameLower(name);
    LowerIdentity(name);
  }

  /**
   * A name without `/` whose last `.` is at `k > 0` has the extension
   * that starts there.
   */
  lemma ExtnameAt(name: string, k: nat)
    requires '/' !in name && name != ".." && 0 < k < |name| && name[k] == '.'
    requires forall j :: k < j < |name| ==> name[j] != '.'
    ensures Extname(name) == name[k..]
  {
    ExtnameOfName(name);
    LastDotAt(name, k);
  }

  /**
   * For a dot-led extension `e` with no other dot and in lower case, the
   * lower-cased extension of a name is `e` exactly when the lower-cased
   * name ends with `e` and has at least one character before it.
   */
  lemma LowerExtnameIs(name: string, e: string)
    requires |e| >= 2 && e[0] == '.' && forall j :: 0 < j < |e| ==> e[j] != '.'
    ensures ToLower(ComponentExtname(name)) == e <==> EndsWith(ToLower(name), e) && |name| > |e|
  {
    ExtnameLower(name);
    var n := ToLower(name);
    var k := LastDot(n);
    LastDotSpec(n);
    if EndsWith(n, e) && |name| > |e| {
      assert n[|n| - |e|] == '.';
      assert forall j :: |n| - |e| < j < |n| ==> n[j] == e[j - (|n| - |e|)];
      assert k == |n| - |e|;
    }
  }
}
