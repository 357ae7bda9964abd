/**
 * The run launcher: which fields of a configuration the rendered run config
 * receives (`write_config`), and how `launch` reads the timing from the
 * training process's standard output. The process itself is external: its
 * behaviour is an input, a `RunOutcome`.
 */
module Launcher {
  import opened Wrappers
  import opened Dicts

  /** The characters for which Python's `str.isspace()` holds, the separators of `str.split()`. */
  predicate IsSpace(c: char) {
    || ('\t' <= c <= '\r')
    || ('\U{1c}' <= c <= '\U{1f}')
    || c == ' '
    || c == '\U{85}'
    || c == '\U{a0}'
    || c == '\U{1680}'
    || ('\U{2000}' <= c <= '\U{200a}')
    || c == '\U{2028}'
    || c == '\U{2029}'
    || c == '\U{202f}'
    || c == '\U{205f}'
    || c == '\U{3000}'
  }

  predicate AllSpace(s: string) {
    forall i :: 0 <= i < |s| ==> IsSpace(s[i])
  }

  predicate NoSpace(s: string) {
    forall i :: 0 <= i < |s| ==> !IsSpace(s[i])
  }

  /** Length of the whitespace run that starts `s`. */
  function LeadingSpace(s: string): nat {
    if s == [] || !IsSpace(s[0]) then 0 else 1 + LeadingSpace(s[1..])
  }

  /** Length of the whitespace run that ends `s`. */
  function TrailingSpace(s: string): nat {
    if s == [] || !IsSpace(s[|s| - 1]) then 0 else 1 + TrailingSpace(s[..|s| - 1])
  }

  /** Length of the run of non-whitespace characters that starts `s`. */
  function WordLength(s: string): nat {
    if s == [] || IsSpace(s[0]) then 0 else 1 + WordLength(s[1..])
  }

  lemma {:induction false} LeadingSpaceRun(s: string)
    ensures LeadingSpace(s) <= |s| && AllSpace(s[..LeadingSpace(s)])
    ensures LeadingSpace(s) == |s| || !IsSpace(s[LeadingSpace(s)])
  {
    if s != [] && IsSpace(s[0]) {
      LeadingSpaceRun(s[1..]);
      var n := LeadingSpace(s);
      assert forall i :: 1 <= i < n ==> s[..n][i] == s[1..][..n - 1][i - 1];
    }
  }

  lemma {:induction false} TrailingSpaceRun(s: string)
    ensures TrailingSpace(s) <= |s| && AllSpace(s[|s| - TrailingSpace(s)..])
    ensures TrailingSpace(s) == |s| || !IsSpace(s[|s| - TrailingSpace(s) - 1])
  {
    if s != [] && IsSpace(s[|s| - 1]) {
      var init := s[..|s| - 1];
      TrailingSpaceRun(init);
      var n := TrailingSpace(s);
      assert s[|s| - n..] == init[|init| - (n - 1)..] + [s[|s| - 1]];
    }
  }

  lemma {:induction false} WordRun(s: string)
    ensures WordLength(s) <= |s| && NoSpace(s[..WordLength(s)])
    ensures WordLength(s) == |s| || IsSpace(s[WordLength(s)])
  {
    if s != [] && !IsSpace(s[0]) {
      WordRun(s[1..]);
      var n := WordLength(s);
      assert forall i :: 1 <= i < n ==> s[..n][i] == s[1..][..n - 1][i - 1];
    }
  }

  /** `s.strip()` */
  function Strip(s: string): (r: string)
    ensures exists a: nat :: a + |r| <= |s| && r == s[a..a + |r|] && AllSpace(s[..a]) && AllSpace(s[a + |r|..])
    ensures r != [] ==> !IsSpace(r[0]) && !IsSpace(r[|r| - 1])
  {
    LeadingSpaceRun(s);
    var a := LeadingSpace(s);
    var t := s[a..];
    TrailingSpaceRun(t);
    var e := |t| - TrailingSpace(t);
    StripShape(s, a, e);
    s[a..a + e]
  }

  /** The piece of `s` between a whitespace prefix of length `a` and a whitespace suffix, `e` long, is what `strip` keeps. */
  lemma StripShape(s: string, a: nat, e: nat)
    requires a + e <= |s| && AllSpace(s[..a]) && AllSpace(s[a..][e..])
    requires a == |s| || !IsSpace(s[a])
    requires e == 0 || !IsSpace(s[a..][e - 1])
    ensures var r := s[a..a + e];
      && (exists a': nat :: a' + |r| <= |s| && r == s[a'..a' + |r|] && AllSpace(s[..a']) && AllSpace(s[a' + |r|..]))
      && (r != [] ==> !IsSpace(r[0]) && !IsSpace(r[|r| - 1]))
  {
    var r := s[a..a + e];
    assert s[a + e..] == s[a..][e..];
    if e > 0 {
      assert r[0] == s[a] && r[e - 1] == s[a..][e - 1];
    }
    assert a + |r| <= |s| && r == s[a..a + |r|];
  }

  /** `s.split()`: the maximal runs of non-whitespace characters, in order. */
  function Split(s: string): (tokens: seq<string>)
    ensures forall i :: 0 <= i < |tokens| ==> tokens[i] != [] && NoSpace(tokens[i])
    decreases |s|
  {
    LeadingSpaceRun(s);
    var rest := s[LeadingSpace(s)..];
    if rest == [] then []
    else
      WordRun(rest);
      var n := WordLength(rest);
      [rest[..n]] + Split(rest[n..])
  }

  /** `t` is a token of `s` that starts at `i` and is followed by nothing but whitespace. */
  predicate TokenAt(s: string, i: nat, t: string) {
    && t != [] && NoSpace(t)
    && i + |t| <= |s| && (forall k :: 0 <= k < |t| ==> s[i + k] == t[k])
    && (i == 0 || IsSpace(s[i - 1]))
    && (forall k :: i + |t| <= k < |s| ==> IsSpace(s[k]))
  }

  /** `t` is the last whitespace-delimited token of `s`. */
  ghost predicate IsLastToken(s: string, t: string) {
    exists i: nat :: TokenAt(s, i, t)
  }

  /** `s.split()` is empty exactly when `s` is all whitespace. */
  lemma SplitEmptyIffAllSpace(s: string)
    ensures Split(s) == [] <==> AllSpace(s)
  {
    LeadingSpaceRun(s);
    var n := LeadingSpace(s);
    if n < |s| {
      assert !IsSpace(s[n]);
    } else {
      assert s[..n] == s;
    }
  }

  /** A single token splits to itself and strips to itself. */
  lemma {:induction false} SplitWord(w: string)
    requires w != [] && NoSpace(w)
    ensures Strip(w) == w && Split(w) == [w]
  {
    LeadingSpaceRun(w);
    TrailingSpaceRun(w);
    WordRun(w);
    assert LeadingSpace(w) == 0 && TrailingSpace(w) == 0;
    assert WordLength(w) == |w|;
    assert w[|w|..] == [];
    assert w[0..] == w;
  }

  /** A token of a suffix of `s` that does not start it is a token of `s`. */
  lemma TokenInSuffix(s: string, k: nat, j: nat, t: string)
    requires k <= |s| && 0 < j && TokenAt(s[k..], j, t)
    ensures TokenAt(s, k + j, t)
  {
  }

  /** `s.split()` on output holding a token: the whitespace `s[..l]`, the first token `s[l..l + n]`, then the split of the rest. */
  lemma SplitFirst(s: string) returns (l: nat, n: nat)
    requires Split(s) != []
    ensures 0 < n && l + n <= |s|
    ensures AllSpace(s[..l]) && NoSpace(s[l..l + n]) && (l + n == |s| || IsSpace(s[l + n]))
    ensures Split(s) == [s[l..l + n]] + Split(s[l + n..])
  {
    LeadingSpaceRun(s);
    l := LeadingSpace(s);
    var rest := s[l..];
    WordRun(rest);
    n := WordLength(rest);
    assert rest[..n] == s[l..l + n] && rest[n..] == s[l + n..];
    assert n < |rest| ==> rest[n] == s[l + n];
  }

  /** When nothing but whitespace follows the first token, it is the last token. */
  lemma OnlyToken(s: string, l: nat, n: nat)
    requires 0 < n && l + n <= |s|
    requires AllSpace(s[..l]) && NoSpace(s[l..l + n]) && AllSpace(s[l + n..])
    ensures TokenAt(s, l, s[l..l + n])
  {
    forall k | l + n <= k < |s| ensures IsSpace(s[k]) {
      assert s[k] == s[l + n..][k - l - n];
    }
    if l > 0 {
      assert s[l - 1] == s[..l][l - 1];
    }
  }

  /** The last element of `s.split()` is the last token of `s`. */
  lemma {:induction false} LastOfSplit(s: string) returns (i: nat)
    requires Split(s) != []
    ensures TokenAt(s, i, Split(s)[|Split(s)| - 1])
    decreases |s|
  {
    var l, n := SplitFirst(s);
    var tail := s[l + n..];
    if Split(tail) == [] {
      SplitEmptyIffAllSpace(tail);
      OnlyToken(s, l, n);
      i := l;
    } else {
      var last := Split(tail)[|Split(tail)| - 1];
      var j := LastOfSplit(tail);
      TokenChars(tail, j, last);
      assert tail != [] && IsSpace(tail[0]) by {
        assert tail == [] ==> Split(tail) == [];
        assert l + n < |s| && tail[0] == s[l + n];
      }
      TokenInSuffix(s, l + n, j, last);
      i := l + n + j;
    }
  }

  /** A string has at most one last token. */
  lemma LastTokenUnique(s: string, i: nat, t: string, j: nat, u: string)
    requires TokenAt(s, i, t) && TokenAt(s, j, u)
    ensures i == j && t == u
  {
    TokenChars(s, i, t);
    TokenChars(s, j, u);
    assert !IsSpace(s[i]) && !IsSpace(s[j]);
    assert i == j;
    assert !IsSpace(s[i + |t| - 1]) && !IsSpace(s[j + |u| - 1]);
  }

  /** Positions a token covers are not whitespace; every position after it is. */
  lemma TokenChars(s: string, i: nat, t: string)
    requires TokenAt(s, i, t)
    ensures forall k :: i <= k < i + |t| ==> !IsSpace(s[k])
    ensures forall k :: i + |t| <= k < |s| ==> IsSpace(s[k])
  {
    forall k | i <= k < i + |t| ensures !IsSpace(s[k]) {
      assert s[i + (k - i)] == t[k - i];
    }
  }

  /**
   * `stdout.split()[-1].strip().split()[-1]`: the last whitespace-delimited
   * token of the output, or `IndexError` when the output holds no token.
   */
  function ParseTiming(stdout: string): (r: Result<string, Exception>)
    ensures r.Failure? <==> AllSpace(stdout)
    ensures r.Failure? ==> r.error == IndexError
    ensures r.Success? ==> IsLastToken(stdout, r.value)
  {
    var tokens := Split(stdout);
    SplitEmptyIffAllSpace(stdout);
    if tokens == [] then Failure(IndexError)
    else
      var last := tokens[|tokens| - 1];
      assert IsLastToken(stdout, last) by {
        var at := LastOfSplit(stdout);
      }
      assert last in tokens;
      SplitWord(last);
      var inner := Split(Strip(last));
      if inner == [] then Failure(IndexError) else Success(inner[|inner| - 1])
  }

  /** The parse succeeds with `t` exactly when `t` is the last whitespace-delimited token of the output. */
  lemma ParseTimingIffLastToken(stdout: string, t: string)
    ensures ParseTiming(stdout) == Success(t) <==> IsLastToken(stdout, t)
  {
    if IsLastToken(stdout, t) {
      var i: nat :| TokenAt(stdout, i, t);
      TokenChars(stdout, i, t);
      assert !AllSpace(stdout) by {
        assert !IsSpace(stdout[i]);
      }
      var r := ParseTiming(stdout);
      var j: nat :| TokenAt(stdout, j, r.value);
      LastTokenUnique(stdout, i, t, j, r.value);
    }
  }

  /**
   * What the `torchrun` subprocess did: it raised (the binary is missing, its
   * output is not UTF-8, ...), or it exited, with any exit code, after
   * printing `stdout`.
   */
  datatype RunOutcome = Raised | Exited(stdout: string)

  /** `launch(config)`: the timing string, or the exception it raises. */
  function Launch(outcome: RunOutcome): (r: Result<string, Exception>)
    ensures r.Failure? <==> outcome.Raised? || AllSpace(outcome.stdout)
    ensures outcome.Raised? ==> r == Failure(LaunchError)
    ensures outcome.Exited? && r.Failure? ==> r.error == IndexError
    ensures r.Success? ==> IsLastToken(outcome.stdout, r.value)
  {
    match outcome
    case Raised => Failure(LaunchError)
    case Exited(stdout) => ParseTiming(stdout)
  }

  /** The keys `write_config` passes to the template. */
  const TemplateFields: seq<Key> := ["batch_size", "loader_workers"]

  /**
   * `{key: config.get(key) for key in ["batch_size", "loader_workers"]}`:
   * exactly the template fields, each with the configuration's value or
   * `None` when the configuration lacks it.
   */
  function SelectFields(config: Dict): (relevant: map<Key, Option<Value>>)
    ensures forall k :: k in relevant <==> k in TemplateFields
    ensures forall k :: k in relevant ==> (relevant[k].Some? <==> HasKey(config, k))
    ensures forall k :: k in relevant && relevant[k].Some? ==> (k, relevant[k].value) in config
  {
    map k | k in TemplateFields :: Get(config, k)
  }

  /** The rendered run config depends only on the mapping's `batch_size` and `loader_workers`. */
  lemma SelectFieldsDependsOnlyOnTemplateFields(a: Dict, b: Dict)
    requires forall k :: k in TemplateFields ==> Get(a, k) == Get(b, k)
    ensures SelectFields(a) == SelectFields(b)
  {
    assert TemplateFields[0] in TemplateFields && TemplateFields[1] in TemplateFields;
  }
}
