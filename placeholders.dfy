/**
 * `replace_placeholders` of graphrag/llm/openai/qwen_completion_llm.py: for each
 * (key, value) of `variables`, in iteration order, every "{key}" of the text is
 * replaced by value with Python's `str.replace`, each pass working on the result
 * of the one before.
 */
module Placeholders {

  /** `pat` occurs in `s` starting at index `k`. */
  predicate OccursAt(s: string, k: nat, pat: string) {
    k + |pat| <= |s| && s[k..k + |pat|] == pat
  }

  /**
   * Python's `s.replace(pat, val)`: scanning left to right, each occurrence of `pat`
   * is replaced by `val` and the scan resumes just past it; text between the
   * occurrences is copied. An empty `pat` matches before every character and at the end.
   */
  function ReplaceAll(s: string, pat: string, val: string): string
    decreases |s|
  {
    if pat == [] then
      if s == [] then val else val + [s[0]] + ReplaceAll(s[1..], pat, val)
    else if s == [] then []
    else if OccursAt(s, 0, pat) then val + ReplaceAll(s[|pat|..], pat, val)
    else [s[0]] + ReplaceAll(s[1..], pat, val)
  }

  /** The placeholder `"{" + key + "}"` that stands for `key`. */
  function Placeholder(key: string): (p: string)
    ensures |p| == |key| + 2 && p[0] == '{' && p[|p| - 1] == '}'
  {
    "{" + key + "}"
  }

  /** The text after the passes for `variables`, in order (the loop of `replace_placeholders`). */
  function Substitute(s: string, variables: seq<(string, string)>): string
    decreases |variables|
  {
    if variables == [] then s
    else
      var (key, value) := variables[|variables| - 1];
      ReplaceAll(Substitute(s, variables[..|variables| - 1]), Placeholder(key), value)
  }

  method ReplacePlaceholders(input: string, variables: seq<(string, string)>) returns (r: string)
    ensures r == Substitute(input, variables)
  {
    r := input;
    for i := 0 to |variables|
      invariant r == Substitute(input, variables[..i])
    {
      var (key, value) := variables[i];
      assert variables[..i + 1][..i] == variables[..i];
      r := ReplaceAll(r, Placeholder(key), value);
    }
    assert variables[..|variables|] == variables;
  }

  /** Where `pat` does not start the text, the first character is copied and the scan moves on. */
  lemma CopyFirst(s: string, pat: string, val: string)
    requires pat != [] && s != [] && !OccursAt(s, 0, pat)
    ensures ReplaceAll(s, pat, val) == [s[0]] + ReplaceAll(s[1..], pat, val)
  {
  }

  /** From index `i` to `j` of `s` no occurrence starts, so that stretch is copied. */
  lemma {:induction false} CopyStretch(s: string, i: nat, j: nat, pat: string, val: string)
    requires pat != [] && i <= j <= |s|
    requires forall k :: i <= k < j ==> !OccursAt(s, k, pat)
    ensures ReplaceAll(s[i..], pat, val) == s[i..j] + ReplaceAll(s[j..], pat, val)
    decreases j - i
  {
    if i < j {
      assert !OccursAt(s, i, pat);
      if i + |pat| <= |s| {
        assert s[i..][0..0 + |pat|] == s[i..i + |pat|];
      }
      assert !OccursAt(s[i..], 0, pat);
      CopyFirst(s[i..], pat, val);
      assert s[i..][1..] == s[i + 1..];
      CopyStretch(s, i + 1, j, pat, val);
      var tailOut := ReplaceAll(s[j..], pat, val);
      assert [s[i]] + (s[i + 1..j] + tailOut) == s[i..j] + tailOut;
    }
  }

  /** A prefix in which no occurrence of `pat` starts is copied through unchanged. */
  lemma CopyUnmatchedPrefix(pre: string, rest: string, pat: string, val: string)
    requires pat != []
    requires forall k :: 0 <= k < |pre| ==> !OccursAt(pre + rest, k, pat)
    ensures ReplaceAll(pre + rest, pat, val) == pre + ReplaceAll(rest, pat, val)
  {
    var s := pre + rest;
    CopyStretch(s, 0, |pre|, pat, val);
    assert s[0..] == s && s[..|pre|] == pre && s[|pre|..] == rest;
  }

  /** Text in which `pat` never occurs is returned as it is. */
  lemma NoOccurrenceUnchanged(s: string, pat: string, val: string)
    requires pat != []
    requires forall k :: 0 <= k < |s| ==> !OccursAt(s, k, pat)
    ensures ReplaceAll(s, pat, val) == s
  {
    assert s + [] == s;
    CopyUnmatchedPrefix(s, [], pat, val);
  }

  /**
   * The leftmost occurrence of `pat` is replaced by `val`, the text before it is copied,
   * and the scan resumes right after it: neither `val` nor an occurrence overlapping
   * the replaced one is looked at again.
   */
  lemma LeftmostOccurrenceReplaced(pre: string, post: string, pat: string, val: string)
    requires pat != []
    requires forall k :: 0 <= k < |pre| ==> !OccursAt(pre + pat + post, k, pat)
    ensures ReplaceAll(pre + pat + post, pat, val) == pre + val + ReplaceAll(post, pat, val)
  {
    assert pre + pat + post == pre + (pat + post);
    CopyUnmatchedPrefix(pre, pat + post, pat, val);
    assert OccursAt(pat + post, 0, pat);
    assert (pat + post)[|pat|..] == post;
  }

  /** A placeholder always starts with '{', so a pass changes nothing in text without one. */
  lemma NoBraceReplaceUnchanged(s: string, key: string, val: string)
    requires '{' !in s
    ensures ReplaceAll(s, Placeholder(key), val) == s
  {
    var pat := Placeholder(key);
    forall k | 0 <= k < |s| ensures !OccursAt(s, k, pat) {
      assert s[k] in s;
    }
    NoOccurrenceUnchanged(s, pat, val);
  }

  /** With no variables, or with no '{' in the text, the text comes back unchanged. */
  lemma {:induction false} SubstituteUnchanged(s: string, variables: seq<(string, string)>)
    ensures Substitute(s, []) == s
    ensures '{' !in s ==> Substitute(s, variables) == s
    decreases |variables|
  {
    if '{' !in s && variables != [] {
      var (key, value) := variables[|variables| - 1];
      SubstituteUnchanged(s, variables[..|variables| - 1]);
      NoBraceReplaceUnchanged(s, key, value);
    }
  }

  /** A value is not scanned again by its own pass, even when it holds the placeholder. */
  lemma ValueNotRescanned(key: string, val: string)
    ensures ReplaceAll(Placeholder(key), Placeholder(key), val) == val
  {
    LeftmostOccurrenceReplaced([], [], Placeholder(key), val);
    assert [] + Placeholder(key) + [] == Placeholder(key);
  }

  /**
   * Later keys work on the result of earlier ones, so the order of `variables`
   * matters: a value holding another key's placeholder is expanded only when that
   * key comes later.
   */
  lemma OrderMatters()
    ensures Substitute("{a}", [("a", "{b}"), ("b", "x")]) == "x"
    ensures Substitute("{a}", [("b", "x"), ("a", "{b}")]) == "{b}"
  {
    ValueNotRescanned("a", "{b}");
    ValueNotRescanned("b", "x");
    assert "{a}"[0..3][1] != Placeholder("b")[1];
    NoOccurrenceUnchanged("{a}", Placeholder("b"), "x");
    assert [("a", "{b}"), ("b", "x")][..1] == [("a", "{b}")];
    assert [("b", "x"), ("a", "{b}")][..1] == [("b", "x")];
    assert [("a", "{b}")][..0] == [];
    assert [("b", "x")][..0] == [];
  }

  /**
   * A placeholder can remain after its own pass: removing one occurrence may join
   * the text around it into a new one.
   */
  lemma PlaceholderMayRemain()
    ensures ReplaceAll("{{a}a}", Placeholder("a"), "") == Placeholder("a")
  {
    var pat := Placeholder("a");
    assert !OccursAt("{{a}a}", 0, pat);
    assert "{{a}a}" == "{" + pat + "a}";
    LeftmostOccurrenceReplaced("{", "a}", pat, "");
    NoBraceReplaceUnchanged("a}", "a", "");
  }
}
