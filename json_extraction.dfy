/**
 * `extract_json_strings` of graphrag/llm/openai/qwen_completion_llm.py. The recursive
 * pattern `(\{(?:[^{}]|(?R))*\})` with `findall` is modelled as the brace-depth scan it
 * amounts to: at a '{' the only possible match ends at the '}' that brings the depth
 * back to zero; when the text ends first there is no match there and the search moves
 * on by one character; after a match the search resumes just past it. Each match is
 * handed to `json.loads` (the parameter `parse`, None standing for `JSONDecodeError`);
 * failures are skipped and the parsed values are kept in order.
 */
module JsonExtraction {
  import opened Wrappers

  /** A JSON value (RFC 8259), as `json.loads` returns it. */
  datatype Json =
    | Null
    | Boolean(b: bool)
    | Number(literal: string)
    | Str(s: string)
    | Array(items: seq<Json>)
    | Object(members: seq<(string, Json)>)

  /** The half-open range `[start, end)` of one match in the scanned text. */
  datatype Span = Span(start: nat, end: nat)

  /** What one character does to the brace depth. */
  function Delta(c: char): int {
    if c == '{' then 1 else if c == '}' then -1 else 0
  }

  /** Number of '{' minus number of '}' in `t`. */
  function Depth(t: string): int {
    if t == [] then 0 else Depth(t[..|t| - 1]) + Delta(t[|t| - 1])
  }

  /**
   * `t` is a text the pattern matches: it opens with '{', the depth stays above zero
   * after every proper prefix, and it is zero at the end (so `t` closes with the '}'
   * matching its first '{').
   */
  ghost predicate IsGroup(t: string) {
    |t| >= 2 && t[0] == '{' && Depth(t) == 0 &&
    forall k :: 1 <= k < |t| ==> Depth(t[..k]) > 0
  }

  /** Some match of the pattern starts at index `p` of `s`. */
  ghost predicate HasGroupAt(s: string, p: nat) {
    exists e :: p < e <= |s| && IsGroup(s[p..e])
  }

  /** Index `p` lies inside one of `spans`. */
  ghost predicate Covered(spans: seq<Span>, p: nat) {
    exists k :: 0 <= k < |spans| && spans[k].start <= p < spans[k].end
  }

  /**
   * Scanning `s` from index `k` at depth `d > 0`: the index just past the '}' that
   * brings the depth to zero, or None when the text ends first.
   */
  function MatchEnd(s: string, k: nat, d: nat): (r: Option<nat>)
    requires k <= |s| && d > 0
    ensures r.Some? ==> k < r.value <= |s| && s[r.value - 1] == '}'
    decreases |s| - k
  {
    if k == |s| then None
    else if s[k] == '}' && d == 1 then Some(k + 1)
    else MatchEnd(s, k + 1, if s[k] == '{' then d + 1 else if s[k] == '}' then d - 1 else d)
  }

  /** The matches `findall` reports when its search starts at index `i`. */
  function ScanFrom(s: string, i: nat): (r: seq<Span>)
    requires i <= |s|
    ensures forall k :: 0 <= k < |r| ==> i <= r[k].start < r[k].end <= |s| && s[r[k].start] == '{'
    ensures forall k :: 0 <= k < |r| - 1 ==> r[k].end <= r[k + 1].start
    decreases |s| - i
  {
    if i == |s| then []
    else if s[i] == '{' then
      match MatchEnd(s, i + 1, 1)
      case Some(e) => [Span(i, e)] + ScanFrom(s, e)
      case None => ScanFrom(s, i + 1)
    else ScanFrom(s, i + 1)
  }

  /** The spans of the matches of the pattern in `s`, left to right. */
  function Candidates(s: string): seq<Span> {
    ScanFrom(s, 0)
  }

  /** The matched texts, as `findall` returns them. */
  function Matches(s: string): seq<string> {
    var spans := Candidates(s);
    seq(|spans|, k requires 0 <= k < |spans| => s[spans[k].start..spans[k].end])
  }

  /** The values of those of the first `n` texts of `ms` that parse, in order. */
  function ParsedPrefix(ms: seq<string>, n: nat, parse: string -> Option<Json>): seq<Json>
    requires n <= |ms|
  {
    if n == 0 then []
    else
      var prefix := ParsedPrefix(ms, n - 1, parse);
      match parse(ms[n - 1])
      case Some(v) => prefix + [v]
      case None => prefix
  }

  /** The values of the texts `ms` that parse, in order. */
  function Parsed(ms: seq<string>, parse: string -> Option<Json>): seq<Json> {
    ParsedPrefix(ms, |ms|, parse)
  }

  /** What `extract_json_strings(s)` returns. */
  function Extracted(s: string, parse: string -> Option<Json>): seq<Json> {
    Parsed(Matches(s), parse)
  }

  /** The search for matches, as a position loop with an inner depth loop. */
  method FindCandidates(s: string) returns (spans: seq<Span>)
    ensures spans == Candidates(s)
  {
    spans := [];
    var i := 0;
    while i < |s|
      invariant 0 <= i <= |s|
      invariant spans + ScanFrom(s, i) == Candidates(s)
      decreases |s| - i
    {
      if s[i] == '{' {
        var k, depth := i + 1, 1;
        while k < |s| && depth > 0
          invariant i < k <= |s| && depth >= 0
          invariant depth > 0 ==> MatchEnd(s, k, depth) == MatchEnd(s, i + 1, 1)
          invariant depth == 0 ==> MatchEnd(s, i + 1, 1) == Some(k)
          decreases |s| - k
        {
          if s[k] == '{' {
            depth := depth + 1;
          } else if s[k] == '}' {
            depth := depth - 1;
          }
          k := k + 1;
        }
        if depth == 0 {
          spans := spans + [Span(i, k)];
          i := k;
        } else {
          i := i + 1;
        }
      } else {
        i := i + 1;
      }
    }
  }

  method ExtractJsonStrings(s: string, parse: string -> Option<Json>) returns (objects: seq<Json>)
    ensures objects == Extracted(s, parse)
  {
    var spans := FindCandidates(s);
    ghost var ms := Matches(s);
    objects := [];
    for k := 0 to |spans|
      invariant objects == ParsedPrefix(ms, k, parse)
    {
      var m := s[spans[k].start..spans[k].end];
      assert ms[k] == m;
      match parse(m) {
        case Some(v) => objects := objects + [v];
        case None =>
      }
    }
  }

  lemma DepthStep(s: string, i: nat, m: nat)
    requires i <= m < |s|
    ensures Depth(s[i..m + 1]) == Depth(s[i..m]) + Delta(s[m])
  {
    assert s[i..m + 1][..m - i] == s[i..m];
  }

  /** A match read in place: depth zero at its end, positive at every index inside it. */
  lemma GroupInPlace(s: string, p: nat, e: nat)
    requires p <= e <= |s| && IsGroup(s[p..e])
    ensures Depth(s[p..e]) == 0
    ensures forall m :: p < m < e ==> Depth(s[p..m]) > 0
  {
    forall m | p < m < e ensures Depth(s[p..m]) > 0 {
      assert s[p..e][..m - p] == s[p..m];
    }
  }

  /** A match is determined by where it starts: it ends at the brace matching the first. */
  lemma GroupEndUnique(s: string, p: nat, e1: nat, e2: nat)
    requires p <= e1 <= |s| && p <= e2 <= |s|
    requires IsGroup(s[p..e1]) && IsGroup(s[p..e2])
    ensures e1 == e2
  {
    GroupInPlace(s, p, e1);
    GroupInPlace(s, p, e2);
  }

  /**
   * Started just past the '{' at `i`, with the depth positive after every prefix
   * scanned so far, MatchEnd finds exactly the match that starts at `i`, if any.
   */
  lemma {:induction false} MatchEndCorrect(s: string, i: nat, k: nat, d: nat)
    requires i < k <= |s| && s[i] == '{' && d > 0
    requires Depth(s[i..k]) == d
    requires forall m :: i < m <= k ==> Depth(s[i..m]) > 0
    ensures MatchEnd(s, k, d).Some? ==> IsGroup(s[i..MatchEnd(s, k, d).value])
    ensures forall e :: i < e <= |s| && IsGroup(s[i..e]) ==> MatchEnd(s, k, d) == Some(e)
    decreases |s| - k
  {
    if k < |s| {
      DepthStep(s, i, k);
      if s[k] == '}' && d == 1 {
        var t := s[i..k + 1];
        forall j | 1 <= j < |t| ensures Depth(t[..j]) > 0 {
          assert t[..j] == s[i..i + j];
        }
        assert IsGroup(t);
        forall e | i < e <= |s| && IsGroup(s[i..e]) ensures e == k + 1 {
          GroupEndUnique(s, i, e, k + 1);
        }
      } else {
        var d' := if s[k] == '{' then d + 1 else if s[k] == '}' then d - 1 else d;
        MatchEndCorrect(s, i, k + 1, d');
      }
    }
  }

  /** At a '{' the search either takes the match starting there or moves on by one. */
  lemma ScanStep(s: string, i: nat)
    requires i < |s| && s[i] == '{'
    ensures forall e :: i < e <= |s| && IsGroup(s[i..e]) ==> ScanFrom(s, i) == [Span(i, e)] + ScanFrom(s, e)
    ensures !HasGroupAt(s, i) ==> ScanFrom(s, i) == ScanFrom(s, i + 1)
  {
    DepthStep(s, i, i);
    MatchEndCorrect(s, i, i + 1, 1);
  }

  lemma {:induction false} ScanFromSound(s: string, i: nat)
    requires i <= |s|
    ensures forall k :: 0 <= k < |ScanFrom(s, i)| ==> IsGroup(s[ScanFrom(s, i)[k].start..ScanFrom(s, i)[k].end])
    decreases |s| - i
  {
    if i < |s| {
      var r := ScanFrom(s, i);
      if s[i] == '{' && MatchEnd(s, i + 1, 1).Some? {
        var e := MatchEnd(s, i + 1, 1).value;
        DepthStep(s, i, i);
        MatchEndCorrect(s, i, i + 1, 1);
        ScanFromSound(s, e);
        var rest := ScanFrom(s, e);
        assert r == [Span(i, e)] + rest;
        forall k | 0 <= k < |r| ensures IsGroup(s[r[k].start..r[k].end]) {
          if k > 0 {
            assert r[k] == rest[k - 1];
          } else {
            assert r[k] == Span(i, e);
          }
        }
      } else {
        ScanFromSound(s, i + 1);
        assert r == ScanFrom(s, i + 1);
      }
    }
  }

  lemma {:induction false} ScanFromComplete(s: string, i: nat)
    requires i <= |s|
    ensures forall p :: i <= p < |s| && HasGroupAt(s, p) ==> Covered(ScanFrom(s, i), p)
    decreases |s| - i
  {
    if i < |s| {
      var r := ScanFrom(s, i);
      if s[i] == '{' {
        DepthStep(s, i, i);
        MatchEndCorrect(s, i, i + 1, 1);
      }
      if s[i] == '{' && MatchEnd(s, i + 1, 1).Some? {
        var e := MatchEnd(s, i + 1, 1).value;
        ScanFromComplete(s, e);
        forall p | i <= p < |s| && HasGroupAt(s, p) ensures Covered(r, p) {
          if p < e {
            assert r[0].start <= p < r[0].end;
          } else {
            var k :| 0 <= k < |ScanFrom(s, e)| && ScanFrom(s, e)[k].start <= p < ScanFrom(s, e)[k].end;
            assert r[k + 1] == ScanFrom(s, e)[k];
          }
        }
      } else {
        assert !HasGroupAt(s, i);
        ScanFromComplete(s, i + 1);
      }
    }
  }

  /**
   * The candidates are exactly what `findall` reports: each is a match (a '{' up to
   * its matching '}', depth never below zero in between), they are disjoint and left
   * to right, and every '{' that starts a match lies inside one of them (so a '{'
   * outside all of them starts no match).
   */
  lemma CandidatesCorrect(s: string)
    ensures forall k :: 0 <= k < |Candidates(s)| ==>
      IsGroup(s[Candidates(s)[k].start..Candidates(s)[k].end])
    ensures forall k :: 0 <= k < |Candidates(s)| - 1 ==> Candidates(s)[k].end <= Candidates(s)[k + 1].start
    ensures forall p :: 0 <= p < |s| && HasGroupAt(s, p) ==> Covered(Candidates(s), p)
  {
    ScanFromSound(s, 0);
    ScanFromComplete(s, 0);
  }

  /** Text without '{' yields no candidate and no object. */
  lemma NoBraceNothingExtracted(s: string, parse: string -> Option<Json>)
    requires '{' !in s
    ensures Candidates(s) == [] && Extracted(s, parse) == []
  {
    SkipWithoutBrace(s, 0, |s|);
    assert Matches(s) == [];
  }

  /**
   * `idx` lists, in increasing order, every index below `n` of a text of `ms` that
   * parses, and `objs` holds the values of those texts.
   */
  ghost predicate IsSelection(idx: seq<nat>, objs: seq<Json>, ms: seq<string>, n: nat, parse: string -> Option<Json>)
    requires n <= |ms|
  {
    |idx| == |objs| &&
    (forall j :: 0 <= j < |idx| ==> idx[j] < n && parse(ms[idx[j]]) == Some(objs[j])) &&
    (forall j, j' :: 0 <= j < j' < |idx| ==> idx[j] < idx[j']) &&
    (forall k :: 0 <= k < n && parse(ms[k]).Some? ==> k in idx)
  }

  /** Taking in text `n`, which parses, extends a selection of the first `n` texts. */
  lemma SelectionExtend(idx: seq<nat>, ms: seq<string>, n: nat, parse: string -> Option<Json>)
    requires n < |ms| && parse(ms[n]).Some?
    requires IsSelection(idx, ParsedPrefix(ms, n, parse), ms, n, parse)
    ensures IsSelection(idx + [n], ParsedPrefix(ms, n + 1, parse), ms, n + 1, parse)
  {
    var prev := ParsedPrefix(ms, n, parse);
    var idx' := idx + [n];
    var objs := prev + [parse(ms[n]).value];
    assert ParsedPrefix(ms, n + 1, parse) == objs;
    forall j | 0 <= j < |idx'| ensures idx'[j] < n + 1 && parse(ms[idx'[j]]) == Some(objs[j]) {
      if j < |idx| {
        assert idx'[j] == idx[j] && objs[j] == prev[j];
      }
    }
    forall j, j' | 0 <= j < j' < |idx'| ensures idx'[j] < idx'[j'] {
      assert idx'[j] == idx[j];
      if j' < |idx| {
        assert idx'[j'] == idx[j'];
      }
    }
    forall k | 0 <= k < n + 1 && parse(ms[k]).Some? ensures k in idx' {
      if k < n {
        var j :| 0 <= j < |idx| && idx[j] == k;
        assert idx'[j] == k;
      } else {
        assert idx'[|idx|] == k;
      }
    }
  }

  /** The kept values are exactly those of the texts that parse, in text order. */
  lemma {:induction false} ParsedSelects(ms: seq<string>, n: nat, parse: string -> Option<Json>)
    requires n <= |ms|
    ensures exists idx :: IsSelection(idx, ParsedPrefix(ms, n, parse), ms, n, parse)
    decreases n
  {
    if n == 0 {
      assert ParsedPrefix(ms, n, parse) == [];
      assert IsSelection([], [], ms, n, parse);
    } else {
      ParsedSelects(ms, n - 1, parse);
      var idx: seq<nat> :| IsSelection(idx, ParsedPrefix(ms, n - 1, parse), ms, n - 1, parse);
      if parse(ms[n - 1]).Some? {
        SelectionExtend(idx, ms, n - 1, parse);
      } else {
        assert ParsedPrefix(ms, n, parse) == ParsedPrefix(ms, n - 1, parse);
        assert IsSelection(idx, ParsedPrefix(ms, n, parse), ms, n, parse);
      }
    }
  }

  /** Nothing is kept exactly when no text parses. */
  lemma NothingParsed(ms: seq<string>, parse: string -> Option<Json>)
    ensures Parsed(ms, parse) == [] <==> forall k :: 0 <= k < |ms| ==> parse(ms[k]).None?
  {
    ParsedSelects(ms, |ms|, parse);
    var idx: seq<nat> :| IsSelection(idx, Parsed(ms, parse), ms, |ms|, parse);
    if Parsed(ms, parse) != [] {
      assert parse(ms[idx[0]]).Some?;
    } else {
      assert idx == [];
    }
  }

  /** The first value kept is that of the first text that parses. */
  lemma FirstParsed(ms: seq<string>, parse: string -> Option<Json>)
    requires Parsed(ms, parse) != []
    ensures exists f :: 0 <= f < |ms| && parse(ms[f]) == Some(Parsed(ms, parse)[0]) &&
                        (forall k :: 0 <= k < f ==> parse(ms[k]).None?)
  {
    ParsedSelects(ms, |ms|, parse);
    var idx: seq<nat> :| IsSelection(idx, Parsed(ms, parse), ms, |ms|, parse);
    var f := idx[0];
    assert forall j :: 0 <= j < |idx| ==> f <= idx[j];
    assert forall k :: 0 <= k < f ==> parse(ms[k]).None?;
    assert parse(ms[f]) == Some(Parsed(ms, parse)[0]);
  }

  /** Without a brace the search passes over a stretch of text unchanged. */
  lemma {:induction false} SkipWithoutBrace(s: string, i: nat, j: nat)
    requires i <= j <= |s|
    requires forall p :: i <= p < j ==> s[p] != '{'
    ensures ScanFrom(s, i) == ScanFrom(s, j)
    decreases j - i
  {
    if i < j {
      SkipWithoutBrace(s, i + 1, j);
    }
  }

  /** With no '}' from index `i` on, no candidate is found there. */
  lemma {:induction false} NoCloseNoCandidate(s: string, i: nat)
    requires i <= |s|
    requires forall p :: i <= p < |s| ==> s[p] != '}'
    ensures ScanFrom(s, i) == []
    decreases |s| - i
  {
    if i < |s| {
      NoCloseNoCandidate(s, i + 1);
    }
  }

  lemma {:induction false} DepthConcat(a: string, b: string)
    ensures Depth(a + b) == Depth(a) + Depth(b)
    decreases |b|
  {
    if b != [] {
      var b' := b[..|b| - 1];
      assert (a + b)[..|a + b| - 1] == a + b';
      DepthConcat(a, b');
    } else {
      assert a + b == a;
    }
  }

  lemma {:induction false} DepthWithoutBraces(x: string)
    requires '{' !in x && '}' !in x
    ensures Depth(x) == 0
    decreases |x|
  {
    if x != [] {
      assert x[|x| - 1] in x;
      assert forall c :: c in x[..|x| - 1] ==> c in x;
      DepthWithoutBraces(x[..|x| - 1]);
    }
  }

  /** A '{' and a '}' around brace-free text form one match. */
  lemma FlatGroup(x: string)
    requires '{' !in x && '}' !in x
    ensures IsGroup("{" + x + "}")
  {
    var t := "{" + x + "}";
    DepthWithoutBraces(x);
    DepthConcat("{" + x, "}");
    DepthConcat("{", x);
    forall k | 1 <= k < |t| ensures Depth(t[..k]) > 0 {
      var y := x[..k - 1];
      assert t[..k] == "{" + y;
      assert forall c :: c in y ==> c in x;
      DepthWithoutBraces(y);
      DepthConcat("{", y);
    }
  }

  /**
   * A match placed after text without '{' and followed by text that holds no match
   * (no '{' or no '}') is the one candidate of the whole text.
   */
  lemma EmbeddedGroup(pre: string, g: string, post: string)
    requires '{' !in pre && IsGroup(g)
    requires '{' !in post || '}' !in post
    ensures Matches(pre + g + post) == [g]
  {
    var s := pre + g + post;
    var a, b := |pre|, |pre| + |g|;
    assert forall p :: 0 <= p < a ==> s[p] == pre[p] && pre[p] in pre;
    SkipWithoutBrace(s, 0, a);
    assert s[a..b] == g;
    ScanStep(s, a);
    assert forall p :: b <= p < |s| ==> s[p] == post[p - b] && post[p - b] in post;
    if '{' !in post {
      SkipWithoutBrace(s, b, |s|);
    } else {
      NoCloseNoCandidate(s, b);
    }
    assert Candidates(s) == [Span(a, b)];
  }

  /**
   * A match inside an enclosing pair of braces is not a candidate of its own: the
   * outer '{' starts the leftmost match, which runs to the final '}' and takes the
   * inner one with it.
   */
  lemma EnclosingGroupAbsorbs(x: string, g: string)
    requires '{' !in x && '}' !in x && IsGroup(g)
    ensures Matches("{" + x + g + "}") == ["{" + x + g + "}"]
  {
    var t := "{" + x + g + "}";
    var h := "{" + x;
    DepthWithoutBraces(x);
    DepthConcat("{", x);
    DepthConcat(h, g);
    DepthConcat(h + g, "}");
    assert t == (h + g) + "}";
    forall k | 1 <= k < |t| ensures Depth(t[..k]) > 0 {
      if k <= |h| {
        var y := x[..k - 1];
        assert t[..k] == "{" + y;
        assert forall c :: c in y ==> c in x;
        DepthWithoutBraces(y);
        DepthConcat("{", y);
      } else if k < |h| + |g| {
        var j := k - |h|;
        assert t[..k] == h + g[..j];
        DepthConcat(h, g[..j]);
      } else {
        assert t[..k] == h + g;
      }
    }
    assert IsGroup(t);
    assert "" + t + "" == t;
    EmbeddedGroup("", t, "");
  }

  /**
   * In `{x {"a": 1}}` the object is swallowed by the enclosing braces: the single
   * candidate is the whole text, so the object is recovered only if that text parses.
   */
  lemma EnclosedObjectExample()
    ensures Matches("{x " + "{\"a\": 1}" + "}") == ["{x {\"a\": 1}}"]
  {
    var g := "{\"a\": 1}";
    FlatGroup("\"a\": 1");
    assert "{" + "\"a\": 1" + "}" == g;
    EnclosingGroupAbsorbs("x ", g);
    assert "{" + "x " + g + "}" == "{x " + g + "}" == "{x {\"a\": 1}}";
  }

  /**
   * The text `prefix {"a": 1} suffix {malformed` has the single candidate `{"a": 1}`:
   * the final '{' is never closed, so it starts no candidate.
   */
  lemma MalformedTailExample()
    ensures Matches("prefix " + "{\"a\": 1}" + " suffix {malformed") == ["{\"a\": 1}"]
  {
    FlatGroup("\"a\": 1");
    assert "{" + "\"a\": 1" + "}" == "{\"a\": 1}";
    EmbeddedGroup("prefix ", "{\"a\": 1}", " suffix {malformed");
  }

  /**
   * Braces are counted inside JSON string literals too: in `{"a": "}"}` the '}' in
   * the string closes the candidate, which is then `{"a": "}` and does not parse.
   */
  lemma BraceInStringExample()
    ensures Matches("{\"a\": \"" + "}\"}") == ["{\"a\": \"}"]
  {
    FlatGroup("\"a\": \"");
    assert "{" + "\"a\": \"" + "}" == "{\"a\": \"}";
    assert "{\"a\": \"" + "}\"}" == "" + "{\"a\": \"}" + "\"}";
    EmbeddedGroup("", "{\"a\": \"}", "\"}");
  }
}
