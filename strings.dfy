/** The functions of Go's strings and path/filepath packages that the client calls. */
module Strings {

  /** strings.HasPrefix */
  predicate HasPrefix(s: string, prefix: string) {
    |prefix| <= |s| && s[..|prefix|] == prefix
  }

  /** strings.HasSuffix */
  predicate HasSuffix(s: string, suffix: string) {
    |suffix| <= |s| && s[|s| - |suffix|..] == suffix
  }

  /** strings.TrimPrefix: drop `prefix` once if `s` starts with it, otherwise keep `s`. */
  function TrimPrefix(s: string, prefix: string): (t: string)
    ensures HasPrefix(s, prefix) ==> prefix + t == s
    ensures !HasPrefix(s, prefix) ==> t == s
  {
    if HasPrefix(s, prefix) then
      assert s[..|prefix|] + s[|prefix|..] == s;
      s[|prefix|..]
    else s
  }

  /** The index of the first `c` in `s`. */
  function IndexOf(s: string, c: char): (i: nat)
    requires c in s
    ensures i < |s| && s[i] == c && c !in s[..i]
  {
    if s[0] == c then 0 else 1 + IndexOf(s[1..], c)
  }

  /** strings.Cut with a one-character separator: the text before the first `sep` and after it. */
  function Cut(s: string, sep: char): (r: (string, string))
    ensures sep in s ==> r.0 + [sep] + r.1 == s && sep !in r.0
    ensures sep !in s ==> r == (s, "")
  {
    if sep in s then
      var i := IndexOf(s, sep);
      assert s[..i] + [sep] + s[i + 1..] == s;
      (s[..i], s[i + 1..])
    else (s, "")
  }

  /** Where the first separator is, Cut splits. */
  lemma CutAt(a: string, sep: char, b: string)
    requires sep !in a
    ensures Cut(a + [sep] + b, sep) == (a, b)
  {
    var s := a + [sep] + b;
    assert s[|a|] == sep;
    assert forall k :: 0 <= k < |a| ==> s[k] == a[k];
    var i := IndexOf(s, sep);
    assert s[..i] == a;
    assert s[i + 1..] == b;
  }

  /** strings.Split with a one-character separator: the pieces between the separators. */
  function Split(s: string, sep: char): (parts: seq<string>)
    ensures |parts| >= 1
    ensures forall i :: 0 <= i < |parts| ==> sep !in parts[i]
    decreases |s|
  {
    if sep !in s then [s]
    else
      var i := IndexOf(s, sep);
      [s[..i]] + Split(s[i + 1..], sep)
  }

  /** strings.Join with a one-character separator. */
  function Join(parts: seq<string>, sep: char): string
    requires |parts| >= 1
  {
    if |parts| == 1 then parts[0] else parts[0] + [sep] + Join(parts[1..], sep)
  }

  /** Joining the pieces with the separator gives the input back. */
  lemma {:induction false} JoinSplit(s: string, sep: char)
    ensures Join(Split(s, sep), sep) == s
    decreases |s|
  {
    if sep in s {
      var i := IndexOf(s, sep);
      var rest := s[i + 1..];
      JoinSplit(rest, sep);
      var parts := Split(s, sep);
      assert parts == [s[..i]] + Split(rest, sep);
      assert parts[0] == s[..i] && parts[1..] == Split(rest, sep);
      assert Join(parts, sep) == s[..i] + [sep] + Join(Split(rest, sep), sep);
      assert s[..i] + [sep] + rest == s;
    }
  }

  /** Splitting pieces that hold no separator, once joined, gives the pieces back. */
  lemma {:induction false} SplitJoin(parts: seq<string>, sep: char)
    requires |parts| >= 1
    requires forall i :: 0 <= i < |parts| ==> sep !in parts[i]
    ensures Split(Join(parts, sep), sep) == parts
    decreases |parts|
  {
    if |parts| > 1 {
      var s := Join(parts, sep);
      var rest := Join(parts[1..], sep);
      assert s == parts[0] + [sep] + rest;
      assert s[|parts[0]|] == sep;
      assert s[..|parts[0]|] == parts[0];
      var i := IndexOf(s, sep);
      assert i == |parts[0]|;
      assert s[i + 1..] == rest;
      SplitJoin(parts[1..], sep);
      assert [parts[0]] + parts[1..] == parts;
    }
  }

  /** The number of pieces is one more than the number of separators. */
  lemma {:induction false} SplitCount(s: string, sep: char)
    ensures |Split(s, sep)| == multiset(s)[sep] + 1
    decreases |s|
  {
    if sep in s {
      var i := IndexOf(s, sep);
      SplitCount(s[i + 1..], sep);
      assert s == s[..i] + [sep] + s[i + 1..];
      assert multiset(s) == multiset(s[..i]) + multiset{sep} + multiset(s[i + 1..]);
    } else {
      assert multiset(s)[sep] == 0;
    }
  }

  /**
   * filepath.Ext with '/' as the separator: the suffix from the last '.' of the final path
   * element, or "" when that element has no '.'.
   */
  function Ext(path: string): (e: string)
    ensures HasSuffix(path, e)
    ensures e != "" ==> e[0] == '.' && '.' !in e[1..] && '/' !in e
    decreases |path|
  {
    if path == [] || path[|path| - 1] == '/' then ""
    else if path[|path| - 1] == '.' then "."
    else
      var e := Ext(path[..|path| - 1]);
      if e == "" then "" else e + [path[|path| - 1]]
  }

  /** The extension is empty exactly when the final path element holds no '.'. */
  lemma {:induction false} ExtEmpty(path: string, slash: int)
    requires -1 <= slash < |path|
    requires slash >= 0 ==> path[slash] == '/'
    requires forall i :: slash < i < |path| ==> path[i] != '/'
    ensures Ext(path) == "" <==> '.' !in path[slash + 1..]
    decreases |path|
  {
    if slash == |path| - 1 {
      assert path[slash + 1..] == [];
    } else {
      var n := |path| - 1;
      var c := path[n];
      var last := path[slash + 1..];
      var init := path[..n];
      var tail := init[slash + 1..];
      assert last == tail + [c];
      if c == '.' {
        assert last[|last| - 1] == '.';
      } else {
        assert c != '/';
        ExtEmpty(init, slash);
        assert Ext(path) == "" <==> Ext(init) == "";
        assert '.' in last <==> '.' in tail;
      }
    }
  }
}
