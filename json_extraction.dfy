/** Locating the JSON object embedded in the model's free-text reply
    (`VertexAiServiceImpl.extractJsonFromResponse`). The source runs the
    regular expression `\{.*\}` with DOTALL and `find()`: a greedy match that
    starts at the first `{` of the text and ends at the last `}`. */
module JsonExtraction {
  import opened Wrappers

  /** The message of the `IOException` thrown when nothing matches. */
  const NoJsonFound := "No valid JSON found in the response"

  /** The position of the first occurrence of `c` in `s`. */
  function FirstIndexOf(s: string, c: char): (r: Option<nat>)
    ensures r.Some? ==> r.value < |s| && s[r.value] == c
    ensures r.Some? ==> forall k :: 0 <= k < r.value ==> s[k] != c
    ensures r.None? ==> c !in s
  {
    if s == [] then None
    else if s[0] == c then Some(0)
    else
      match FirstIndexOf(s[1..], c)
      case None => None
      case Some(k) => Some(k + 1)
  }

  /** The position of the last occurrence of `c` in `s`. */
  function LastIndexOf(s: string, c: char): (r: Option<nat>)
    ensures r.Some? ==> r.value < |s| && s[r.value] == c
    ensures r.Some? ==> forall k :: r.value < k < |s| ==> s[k] != c
    ensures r.None? ==> c !in s
  {
    if s == [] then None
    else if s[|s| - 1] == c then Some(|s| - 1)
    else
      var front := s[..|s| - 1];
      match LastIndexOf(front, c)
      case None =>
        assert s == front + [s[|s| - 1]];
        None
      case Some(k) =>
        assert forall m :: k < m < |s| - 1 ==> front[m] == s[m];
        Some(k)
  }

  /** The text `matcher.group(0)` holds after a successful `find()`, or the
      `IOException` thrown when `find()` fails. */
  function ExtractSpan(text: string): (r: Result<string>)
    ensures r.Err? ==> r.message == NoJsonFound
    ensures r.Ok? ==> |r.value| >= 2 && r.value[0] == '{' && r.value[|r.value| - 1] == '}'
  {
    match FirstIndexOf(text, '{')
    case None => Err(NoJsonFound)
    case Some(i) =>
      match LastIndexOf(text, '}')
      case None => Err(NoJsonFound)
      case Some(j) => if i < j then Ok(text[i..j + 1]) else Err(NoJsonFound)
  }

  /** `extractJsonFromResponse`: the span is handed to the JSON parser
      `readValue`, whose own failure is reported as its own error. */
  function ExtractJsonFromResponse<T>(text: string, readValue: string -> Result<T>): (r: Result<T>)
    // When `\{.*\}` matches nowhere the parser is never consulted ...
    ensures (forall i, j :: !IsMatch(text, i, j)) ==> r == Err(NoJsonFound)
    // ... and otherwise it sees exactly the match `find()` reports.
    ensures forall i, j :: IsFoundMatch(text, i, j) ==> r == readValue(text[i..j])
  {
    ExtractFailsIff(text);
    match ExtractSpan(text)
    case Err(message) => Err(message)
    case Ok(span) =>
      ExtractSpanIsFoundMatch(text);
      readValue(span)
  }

  // ---------------------------------------------------------------------------
  // The regular expression, stated independently of the first/last search.

  /** `s[i..j]` matches `\{.*\}` with DOTALL: a `{`, any characters including
      line breaks, then a `}`. */
  ghost predicate IsMatch(s: string, i: int, j: int)
  {
    0 <= i && i + 2 <= j <= |s| && s[i] == '{' && s[j - 1] == '}'
  }

  /** The match `find()` reports: no match starts earlier, and among those
      that start at `i` the greedy `.*` keeps the longest. */
  ghost predicate IsFoundMatch(s: string, i: int, j: int)
  {
    IsMatch(s, i, j) &&
    forall i', j' :: IsMatch(s, i', j') ==> i < i' || (i == i' && j' <= j)
  }

  /** Extraction fails exactly when the regular expression matches nowhere,
      that is, when no `}` comes after any `{` (text without `{`, or `}{`). */
  lemma {:induction false} ExtractFailsIff(s: string)
    ensures ExtractSpan(s).Err? <==> forall i, j :: !IsMatch(s, i, j)
    ensures ExtractSpan(s).Err? <==>
      forall i, j :: 0 <= i < j < |s| && s[i] == '{' ==> s[j] != '}'
  {
    match FirstIndexOf(s, '{')
    case None =>
    case Some(i) =>
      match LastIndexOf(s, '}')
      case None =>
      case Some(j) =>
        if i < j {
          assert IsMatch(s, i, j + 1);
        } else {
          forall i', j' ensures !IsMatch(s, i', j') {
          }
        }
  }

  /** On success the span is the one `find()` reports: it starts at the
      leftmost `{` that can begin a match and ends at the last `}`. */
  lemma {:induction false} ExtractSpanIsFoundMatch(s: string)
    requires ExtractSpan(s).Ok?
    ensures exists i, j :: IsFoundMatch(s, i, j) && ExtractSpan(s).value == s[i..j]
  {
    var i := FirstIndexOf(s, '{').value;
    var j := LastIndexOf(s, '}').value;
    assert IsFoundMatch(s, i, j + 1);
  }

  /** Conversely, whatever match `find()` reports is what extraction returns. */
  lemma {:induction false} FoundMatchIsExtracted(s: string, i: int, j: int)
    requires IsFoundMatch(s, i, j)
    ensures ExtractSpan(s) == Ok(s[i..j])
  {
    ExtractFailsIff(s);
    ExtractSpanIsFoundMatch(s);
    var i', j' :| IsFoundMatch(s, i', j') && ExtractSpan(s).value == s[i'..j'];
    assert IsMatch(s, i', j') && IsMatch(s, i, j);
  }

  /** On success the text splits into a prefix without `{`, the span, and a
      suffix without `}`: the span is contiguous and keeps every character
      between its ends, line breaks included. */
  lemma {:induction false} ExtractSpanSplitsText(s: string) returns (pre: string, post: string)
    requires ExtractSpan(s).Ok?
    ensures s == pre + ExtractSpan(s).value + post
    ensures '{' !in pre && '}' !in post
  {
    var i := FirstIndexOf(s, '{').value;
    var j := LastIndexOf(s, '}').value;
    assert ExtractSpan(s).value == s[i..j + 1];
    pre, post := s[..i], s[j + 1..];
    assert s == pre + s[i..j + 1] + post;
    forall k | 0 <= k < |pre| ensures pre[k] != '{' { }
    forall k | 0 <= k < |post| ensures post[k] != '}' {
      assert post[k] == s[j + 1 + k];
    }
  }

  /** Extracting again from an extracted span gives the same span back. */
  lemma {:induction false} ExtractSpanIdempotent(s: string)
    requires ExtractSpan(s).Ok?
    ensures ExtractSpan(ExtractSpan(s).value) == ExtractSpan(s)
  {
    var span := ExtractSpan(s).value;
    assert IsFoundMatch(span, 0, |span|);
    FoundMatchIsExtracted(span, 0, |span|);
    assert span[0..|span|] == span;
  }

  /** A `{` with no `{` before it and a later `}` with no `}` after it
      delimit the extracted span. */
  lemma {:induction false} ExtractSpanAt(s: string, i: nat, j: nat)
    requires i < j < |s| && s[i] == '{' && s[j] == '}'
    requires forall k :: 0 <= k < i ==> s[k] != '{'
    requires forall k :: j < k < |s| ==> s[k] != '}'
    ensures ExtractSpan(s) == Ok(s[i..j + 1])
  {
    var fi := FirstIndexOf(s, '{');
    var lj := LastIndexOf(s, '}');
    assert fi.Some? && fi.value == i;
    assert lj.Some? && lj.value == j;
  }

  /** The converse of `ExtractSpanSplitsText`: a braced span with no `{`
      before it and no `}` after it is what extraction returns. */
  lemma {:induction false} ExtractSpanOfSplit(pre: string, span: string, post: string)
    requires |span| >= 2 && span[0] == '{' && span[|span| - 1] == '}'
    requires '{' !in pre && '}' !in post
    ensures ExtractSpan(pre + span + post) == Ok(span)
  {
    var s := pre + span + post;
    var i, j := |pre|, |pre| + |span| - 1;
    forall k | 0 <= k < i ensures s[k] != '{' {
      assert s[k] == pre[k];
    }
    forall k | j < k < |s| ensures s[k] != '}' {
      assert s[k] == post[k - j - 1];
    }
    ExtractSpanAt(s, i, j);
    assert s[i..j + 1] == span;
  }

  /** Text around a single object is stripped. */
  lemma ExampleSurroundingText()
    ensures ExtractSpan("blah {\"a\":1} blah") == Ok("{\"a\":1}")
  {
    assert "blah " + "{\"a\":1}" + " blah" == "blah {\"a\":1} blah";
    ExtractSpanOfSplit("blah ", "{\"a\":1}", " blah");
  }

  /** The greedy match swallows narration between two objects. */
  lemma ExampleStrayBraces()
    ensures ExtractSpan("x {a} y {b} z") == Ok("{a} y {b}")
  {
    assert "x " + "{a} y {b}" + " z" == "x {a} y {b} z";
    ExtractSpanOfSplit("x ", "{a} y {b}", " z");
  }

  /** A `}` before the only `{` does not close it. */
  lemma ExampleReversedBraces()
    ensures ExtractSpan("}{") == Err(NoJsonFound)
  {
    var s := "}{";
    assert FirstIndexOf(s, '{') == Some(1) by {
      assert s[0] != '{' && s[1] == '{';
    }
  }

  /** Text without any `{` has no match. */
  lemma ExampleNoBraces()
    ensures ExtractSpan("no json here") == Err(NoJsonFound)
  {
    assert '{' !in "no json here";
  }

  /** `{}` is the shortest text that matches. */
  lemma ExampleEmptyObject()
    ensures ExtractSpan("{}") == Ok("{}")
  {
    ExtractSpanAt("{}", 0, 1);
    assert "{}"[0..2] == "{}";
  }
}
