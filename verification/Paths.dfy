/** common/util.cc: path strings, their components, and the helpers that cut them up. */
module Paths {
  import opened Collections

  /* ---------- Tokens: what repeated strtok calls on "/" yield ---------- */

  /** Index of the first slash, or the length when there is none. */
  function FirstSlash(s: string): (n: nat)
    ensures n <= |s| && forall i | 0 <= i < n :: s[i] != '/'
    ensures n < |s| ==> s[n] == '/'
  {
    if s == "" || s[0] == '/' then 0 else 1 + FirstSlash(s[1..])
  }

  function Tokens(s: string): seq<string>
    decreases |s|
  {
    if s == "" then []
    else if s[0] == '/' then Tokens(s[1..])
    else
      var n := FirstSlash(s);
      [s[..n]] + Tokens(s[n..])
  }

  lemma {:induction false} TokensConcat(p: string, q: string)
    ensures Tokens(p + "/" + q) == Tokens(p) + Tokens(q)
    decreases |p|
  {
    var s := p + "/" + q;
    if p == "" {
      assert s[1..] == q;
    } else if p[0] == '/' {
      assert s[1..] == p[1..] + "/" + q;
      TokensConcat(p[1..], q);
    } else {
      var n := FirstSlash(p);
      FirstSlashConcat(p, q);
      assert s[..n] == p[..n];
      assert s[n..] == p[n..] + "/" + q;
      TokensConcat(p[n..], q);
    }
  }

  lemma FirstSlashConcat(p: string, q: string)
    ensures FirstSlash(p + "/" + q) == FirstSlash(p)
  {
    hide FirstSlash;
    var s, n := p + "/" + q, FirstSlash(p);
    assert forall i | 0 <= i < n :: s[i] == p[i];
    assert s[n] == '/';
  }

  lemma {:induction false} TokensAreWords(s: string)
    ensures forall t | t in Tokens(s) :: t != "" && '/' !in t
    decreases |s|
  {
    if s != "" {
      if s[0] == '/' {
        TokensAreWords(s[1..]);
      } else {
        TokensAreWords(s[FirstSlash(s)..]);
      }
    }
  }

  lemma TokensOfWord(t: string)
    requires t != "" && '/' !in t
    ensures Tokens(t) == [t]
  {
    assert FirstSlash(t) == |t|;
    assert t[..|t|] == t;
  }

  /** One strtok call: the next token and what is left of the string. */
  method StrTok(s: string) returns (tok: Option<string>, rest: string)
    ensures tok.None? ==> Tokens(s) == []
    ensures tok.Some? ==> Tokens(s) == [tok.value] + Tokens(rest) && |rest| < |s|
  {
    rest := s;
    while rest != "" && rest[0] == '/'
      invariant Tokens(rest) == Tokens(s) && |rest| <= |s|
      decreases |rest|
    {
      rest := rest[1..];
    }
    if rest == "" {
      return None, "";
    }
    var n := FirstSlash(rest);
    tok := Some(rest[..n]);
    rest := rest[n..];
  }

  /* ---------- split_path ---------- */

  /** How split_path treats one token: ".." pops, "." is skipped, anything else is pushed. */
  function Push(acc: seq<string>, t: string): seq<string> {
    if t == ".." then (if acc == [] then acc else acc[..|acc| - 1])
    else if t != "" && t != "." then acc + [t]
    else acc
  }

  function Fold(acc: seq<string>, toks: seq<string>): seq<string>
    decreases |toks|
  {
    if toks == [] then acc else Fold(Push(acc, toks[0]), toks[1..])
  }

  /** The component list of a path. */
  function Components(s: string): seq<string> {
    Fold([], Tokens(s))
  }

  method SplitPath(str: string) returns (res: seq<string>)
    ensures res == Components(str)
  {
    res := [];
    if str == "" { return; }
    var p, rest := StrTok(str);
    while p.Some?
      invariant Components(str) == if p.Some? then Fold(res, [p.value] + Tokens(rest)) else res
      decreases if p.Some? then 1 + |rest| else 0
    {
      var s := p.value;
      assert ([s] + Tokens(rest))[1..] == Tokens(rest);
      if s == ".." {
        if res != [] { res := res[..|res| - 1]; }
      } else if s != "" && s != "." {
        res := res + [s];
      }
      p, rest := StrTok(rest);
    }
  }

  lemma {:induction false} FoldConcat(acc: seq<string>, a: seq<string>, b: seq<string>)
    ensures Fold(acc, a + b) == Fold(Fold(acc, a), b)
    decreases |a|
  {
    if a == [] {
      assert a + b == b;
    } else {
      assert (a + b)[1..] == a[1..] + b;
      FoldConcat(Push(acc, a[0]), a[1..], b);
    }
  }

  /** Splitting p + "/" + q continues the fold of p with the tokens of q. */
  lemma ComponentsConcat(p: string, q: string)
    ensures Components(p + "/" + q) == Fold(Components(p), Tokens(q))
  {
    TokensConcat(p, q);
    FoldConcat([], Tokens(p), Tokens(q));
  }

  predicate ValidName(n: string) {
    n != "" && '/' !in n && n != "." && n != ".."
  }

  predicate ValidNames(cs: seq<string>) {
    forall c | c in cs :: ValidName(c)
  }

  lemma {:induction false} FoldValid(acc: seq<string>, toks: seq<string>)
    requires ValidNames(acc)
    requires forall t | t in toks :: t != "" && '/' !in t
    ensures ValidNames(Fold(acc, toks))
    decreases |toks|
  {
    if toks != [] {
      assert toks[0] in toks && forall t | t in toks[1..] :: t in toks;
      FoldValid(Push(acc, toks[0]), toks[1..]);
    }
  }

  /** Whatever the string, split_path only yields valid names. */
  lemma ComponentsValid(s: string)
    ensures ValidNames(Components(s))
  {
    TokensAreWords(s);
    FoldValid([], Tokens(s));
  }

  /** How far the tokens climb above where they start, when they start at the given depth. */
  function Climb(depth: nat, toks: seq<string>): nat
    decreases |toks|
  {
    if toks == [] then 0
    else if toks[0] == ".." then (if depth == 0 then 1 + Climb(0, toks[1..]) else Climb(depth - 1, toks[1..]))
    else if toks[0] != "" && toks[0] != "." then Climb(depth + 1, toks[1..])
    else Climb(depth, toks[1..])
  }

  /** What is left of a component list after climbing n levels; above its start there is nothing to take away. */
  function Climbed(acc: seq<string>, n: nat): seq<string> {
    if n <= |acc| then acc[..|acc| - n] else []
  }

  /** Folding tokens onto acc removes as many components as they climb, and then does what they do on their own. */
  lemma {:induction false} FoldClimbs(acc: seq<string>, own: seq<string>, toks: seq<string>)
    ensures Fold(acc + own, toks) == Climbed(acc, Climb(|own|, toks)) + Fold(own, toks)
    decreases |toks|
  {
    if toks != [] {
      if toks[0] == ".." && own == [] {
        var up := Push(acc, "..");
        assert acc + [] == acc && up + [] == up;
        FoldClimbs(up, [], toks[1..]);
      } else {
        var next := Push(own, toks[0]);
        assert Push(acc + own, toks[0]) == acc + next;
        FoldClimbs(acc, next, toks[1..]);
      }
    }
  }

  /** The components of p + "/" + q: those of p that q does not climb away, and then those of q. */
  lemma ComponentsJoined(p: string, q: string)
    ensures Components(p + "/" + q) == Climbed(Components(p), Climb(0, Tokens(q))) + Components(q)
  {
    ComponentsConcat(p, q);
    assert Components(p) + [] == Components(p);
    FoldClimbs(Components(p), [], Tokens(q));
  }

  lemma DotDotClimbs()
    ensures Climb(0, Tokens("..")) == 1 && Components("..") == []
  {
    TokensOfWord("..");
    assert [".."][1..] == [];
  }

  /* ---------- Canonical spellings ---------- */

  /** "/c0/c1/..": empty for no components. */
  function Absolute(cs: seq<string>): string {
    if cs == [] then "" else Absolute(cs[..|cs| - 1]) + "/" + cs[|cs| - 1]
  }

  /** The canonical spelling of a component list. */
  function Join(cs: seq<string>): string {
    if cs == [] then "/" else Absolute(cs)
  }

  /** `path` spells the components `cs`: canonically, or as the `"/" + "/" + name` that
      MDSService builds for children of the root. */
  predicate Spells(path: string, cs: seq<string>) {
    && ValidNames(cs)
    && (path == Join(cs) || (|cs| == 1 && path == "/" + "/" + cs[0]))
  }

  lemma {:induction false} AbsoluteComponents(cs: seq<string>)
    requires ValidNames(cs)
    ensures Components(Absolute(cs)) == cs
  {
    if cs != [] {
      var init, last := cs[..|cs| - 1], cs[|cs| - 1];
      AbsoluteComponents(init);
      assert last in cs;
      TokensOfWord(last);
      ComponentsConcat(Absolute(init), last);
      assert [last][1..] == [];
      assert Fold(init, [last]) == init + [last];
      assert cs == init + [last];
    }
  }

  lemma SpellsComponents(path: string, cs: seq<string>)
    requires Spells(path, cs)
    ensures Components(path) == cs && path != ""
  {
    AbsoluteComponents(cs);
    if cs == [] {
      assert Tokens("/") == Tokens(""[..]) == [];
    } else if path == Join(cs) {
    } else {
      TokensConcat("/", cs[0]);
      TokensConcat("", cs[0]);
      assert "/"[1..] == "";
      assert "/" + "/" + cs[0] == "/" + "/" + cs[0];
      assert Absolute(cs[..0]) == "";
      assert Absolute(cs) == "" + "/" + cs[0];
    }
  }

  /** Re-joining and re-splitting the components of any path is the identity. */
  lemma JoinSplit(s: string)
    ensures Components(Join(Components(s))) == Components(s)
  {
    ComponentsValid(s);
    SpellsComponents(Join(Components(s)), Components(s));
  }

  /* ---------- dirname, basename ---------- */

  /** dirname reads past the end of a path made of slashes only. */
  predicate HasName(path: string) {
    exists i | 0 <= i < |path| :: path[i] != '/'
  }

  /** The path without its trailing slashes. */
  function TrimSlashes(path: string): (t: string) {
    if path != "" && path[|path| - 1] == '/' then TrimSlashes(path[..|path| - 1]) else path
  }

  /** Index of the last slash, or -1: rfind. */
  function LastSlash(s: string): (k: int)
    ensures -1 <= k < |s| && forall i | k < i < |s| :: s[i] != '/'
    ensures k >= 0 ==> s[k] == '/'
  {
    if s == "" then -1
    else if s[|s| - 1] == '/' then |s| - 1
    else LastSlash(s[..|s| - 1])
  }

  function DirOf(path: string): string
    requires HasName(path)
  {
    var t := TrimSlashes(path);
    var k := LastSlash(t);
    if k < 0 then "/"
    else if t[..k] == "" then "/" else t[..k]
  }

  method Dirname(path: string) returns (dirpath: string)
    requires HasName(path)
    ensures dirpath == DirOf(path)
  {
    var p := path;
    while p[|p| - 1] == '/'
      invariant HasName(p) && TrimSlashes(p) == TrimSlashes(path)
      decreases |p|
    {
      p := p[..|p| - 1];
    }
    var k := LastSlash(p);
    if k < 0 { return "/"; }
    dirpath := p[..k];
    if dirpath == "" { dirpath := "/"; }
  }

  /** basename drops one trailing slash only. */
  function BaseOf(path: string): string
    requires path != ""
  {
    var t := if path[|path| - 1] == '/' then path[..|path| - 1] else path;
    t[LastSlash(t) + 1..]
  }

  predicate FilenameValid(name: string) {
    '/' !in name
  }

  /** dirname and basename take the last component off a spelled path, and leave a spelled path. */
  lemma SpellsDirname(path: string, cs: seq<string>)
    requires Spells(path, cs) && cs != []
    ensures HasName(path)
    ensures Spells(DirOf(path), cs[..|cs| - 1])
    ensures BaseOf(path) == cs[|cs| - 1]
  {
    var init, last := cs[..|cs| - 1], cs[|cs| - 1];
    assert last in cs && forall c | c in init :: c in cs;
    if path == Join(cs) {
      CutName(path, Absolute(init), last);
    } else {
      CutName(path, "/", last);
    }
  }

  lemma CutName(path: string, stem: string, name: string)
    requires path == stem + "/" + name && ValidName(name)
    ensures HasName(path) && BaseOf(path) == name
    ensures DirOf(path) == if stem == "" then "/" else stem
  {
    var n := |path| - 1;
    assert path[n] == name[|name| - 1];
    assert name[|name| - 1] in name;
    assert path[n] != '/';
    assert path[|stem| + 1..] == name;
    assert forall i | |stem| < i < |path| :: path[i] == name[i - |stem| - 1] && path[i] != '/';
    assert path[|stem|] == '/';
    assert LastSlash(path) == |stem|;
    assert path[..|stem|] == stem;
  }

  /** Of trailing slashes dirname drops all, basename only one. */
  lemma TrailingSlash(path: string)
    requires HasName(path)
    ensures HasName(path + "/") && DirOf(path + "/") == DirOf(path)
    ensures path[|path| - 1] != '/' ==> BaseOf(path + "/") == BaseOf(path)
    ensures path[|path| - 1] == '/' ==> BaseOf(path + "/") == ""
  {
    var q := path + "/";
    assert q[..|path|] == path;
    assert exists i :: 0 <= i < |path| && path[i] != '/' && q[i] != '/';
    assert TrimSlashes(q) == TrimSlashes(path);
    hide TrimSlashes, HasName;
    if path[|path| - 1] == '/' {
      assert LastSlash(path) == |path| - 1;
    }
  }

  /** The path of a child, as MDSService spells it, spells the child's component list. */
  lemma SpellsChild(path: string, cs: seq<string>, name: string)
    requires path == Join(cs) && ValidNames(cs) && ValidName(name)
    ensures Spells(path + "/" + name, cs + [name])
  {
    assert (cs + [name])[..|cs|] == cs;
    if cs == [] {
      assert [] + [name] == [name];
    }
  }

  /* ---------- findAll ---------- */

  predicate MatchAt(str: string, delim: string, i: nat) {
    i + |delim| <= |str| && str[i..i + |delim|] == delim
  }

  /** std::string::find: the first match at or after `from`, or -1. */
  method Find(str: string, delim: string, from: nat) returns (k: int)
    ensures k == -1 || (from <= k && MatchAt(str, delim, k))
    ensures forall i: nat | from <= i && (k == -1 || i < k) :: !MatchAt(str, delim, i)
  {
    var i := from;
    while i + |delim| <= |str|
      invariant from <= i
      invariant forall j: nat | from <= j < i :: !MatchAt(str, delim, j)
    {
      if str[i..i + |delim|] == delim { return i; }
      i := i + 1;
    }
    return -1;
  }

  /** findAll returns exactly the match positions, in increasing order. */
  method FindAll(str: string, delim: string) returns (ret: seq<nat>)
    ensures forall i, j | 0 <= i < j < |ret| :: ret[i] < ret[j]
    ensures forall k: nat :: k in ret <==> k < |str| && MatchAt(str, delim, k)
  {
    ret := [];
    var index := Find(str, delim, 0);
    while index != -1 && index < |str|
      invariant index == -1 || (0 <= index && MatchAt(str, delim, index))
      invariant forall i, j | 0 <= i < j < |ret| :: ret[i] < ret[j]
      invariant forall i | 0 <= i < |ret| :: ret[i] < |str| && (index == -1 || ret[i] < index)
      invariant forall k: nat | index == -1 || k < index :: k in ret <==> k < |str| && MatchAt(str, delim, k)
      decreases if index == -1 then 0 else |str| + 1 - index
    {
      ret := ret + [index];
      index := Find(str, delim, index + 1);
    }
  }
}
