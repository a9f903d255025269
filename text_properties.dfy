/**
  What the salvage candidate and the output cleaning of the transcript
  generator compute, stated by positions in the text rather than by the
  split/join and strip chains that compute them.
 */
module TextProperties {
  import opened PyStr
  import opened Transcripts

  /**
    The text has a `'['` and, somewhere after the first one, a `']'`
    (when either is missing, `FirstIndex` gives `|s|` or `LastIndex` gives
    `-1`, and the comparison fails).
   */
  predicate HasBracketSpan(s: string)
  {
    FirstIndex(s, '[') < LastIndex(s, ']')
  }

  /** With a `'['` present, `SplitLeft` is the text from the first `'['` on; without, it is `"["`. */
  lemma SplitLeftFromFirst(s: string)
    ensures FirstIndex(s, '[') < |s| ==> SplitLeft(s) == s[FirstIndex(s, '[')..]
    ensures FirstIndex(s, '[') == |s| ==> SplitLeft(s) == "["
  {
    JoinSplitTail(s, '[');
    var i := FirstIndex(s, '[');
    if i < |s| {
      assert s[i..] == [s[i]] + s[i + 1..];
    }
  }

  /** With a `']'` present, `SplitRight` is the text up to the last `']'`; without, it is `"]"`. */
  lemma SplitRightToLast(t: string)
    ensures LastIndex(t, ']') >= 0 ==> SplitRight(t) == t[..LastIndex(t, ']') + 1]
    ensures LastIndex(t, ']') < 0 ==> SplitRight(t) == "]"
  {
    JoinSplitInit(t, ']');
    var l := LastIndex(t, ']');
    if l >= 0 {
      assert t[..l] + "]" == t[..l + 1];
    }
  }

  /**
    The salvage candidate is the text from the first `'['` to the last
    `']'`, both included, when such a span exists, and `"]"` otherwise.
   */
  lemma SalvageCandidateSpan(s: string)
    ensures HasBracketSpan(s) ==>
      SalvageCandidate(s) == s[FirstIndex(s, '[')..LastIndex(s, ']') + 1]
    ensures !HasBracketSpan(s) ==> SalvageCandidate(s) == "]"
  {
    if HasBracketSpan(s) {
      SalvageCandidateFound(s);
    } else if FirstIndex(s, '[') < |s| {
      SalvageCandidateUnclosed(s);
    } else {
      SplitLeftFromFirst(s);
      SplitRightToLast("[");
    }
  }

  lemma SalvageCandidateFound(s: string)
    requires HasBracketSpan(s)
    ensures SalvageCandidate(s) == s[FirstIndex(s, '[')..LastIndex(s, ']') + 1]
  {
    var i := FirstIndex(s, '[');
    var j := LastIndex(s, ']');
    SplitLeftFromFirst(s);
    SplitRightOfSuffix(s, i, j);
    SalvageCandidateOf(s, s[i..], s[i..j + 1]);
  }

  /** The salvage candidate through its two halves. */
  lemma SalvageCandidateOf(s: string, left: string, right: string)
    requires SplitLeft(s) == left && SplitRight(left) == right
    ensures SalvageCandidate(s) == right
  {
  }

  /** `SplitRight` of the text from `i` on, when its last `']'` is at `j`. */
  lemma SplitRightOfSuffix(s: string, i: nat, j: int)
    requires i <= j && j == LastIndex(s, ']')
    ensures SplitRight(s[i..]) == s[i..j + 1]
  {
    LastIndexOfSuffix(s, ']', i);
    SplitRightToLast(s[i..]);
    SliceOfSuffix(s, i, j - i + 1);
  }

  lemma SalvageCandidateUnclosed(s: string)
    requires FirstIndex(s, '[') < |s| && !HasBracketSpan(s)
    ensures SalvageCandidate(s) == "]"
  {
    var i := FirstIndex(s, '[');
    var left := s[i..];
    assert SplitLeft(s) == left by { SplitLeftFromFirst(s); }
    assert LastIndex(left, ']') < 0 by {
      var l := LastIndex(left, ']');
      if l >= 0 {
        LastIndexAfter(s, ']', i, l);
      }
    }
    SplitRightToLast(left);
  }

  /** The salvage candidate of a salvage candidate is itself. */
  lemma SalvageCandidateIdempotent(s: string)
    ensures SalvageCandidate(SalvageCandidate(s)) == SalvageCandidate(s)
  {
    SalvageCandidateSpan(s);
    var t := SalvageCandidate(s);
    SalvageCandidateSpan(t);
    if HasBracketSpan(s) {
      FirstIndexUnique(t, '[', 0);
      LastIndexUnique(t, ']', |t| - 1);
      assert t[0..|t|] == t;
    } else {
      assert '[' !in t;
    }
  }

  /**
    Prose around an array is dropped: with no `'['` before the array and
    no `']'` after it, the candidate is the array text itself.
   */
  lemma SalvageCandidateOfWrapped(before: string, body: string, after: string)
    requires '[' !in before && ']' !in after
    ensures SalvageCandidate(before + "[" + body + "]" + after) == "[" + body + "]"
  {
    var s := before + "[" + body + "]" + after;
    var i := |before|;
    var j := |before| + |body| + 1;
    assert s[i] == '[' && s[j] == ']';
    assert forall k | 0 <= k < i :: s[k] == before[k];
    FirstIndexUnique(s, '[', i);
    assert forall k | j < k < |s| :: s[k] == after[k - j - 1];
    LastIndexUnique(s, ']', j);
    SalvageCandidateSpan(s);
    assert s[i..j + 1] == "[" + body + "]";
  }

  /** Cleaning leaves a bracketed array untouched, so the strict parse sees the reply as sent. */
  lemma CleanOutputKeepsArray(content: string)
    requires |content| >= 2 && content[0] == '[' && content[|content| - 1] == ']'
    ensures CleanOutput(content) == content
  {
    assert '[' !in Whitespace && ']' !in Whitespace;
    StripKeeps(content, Whitespace);
    assert '[' !in PythonChars && ']' !in PythonChars;
    StripKeeps(content, PythonChars);
    assert '[' !in Backticks && ']' !in Backticks;
    StripKeeps(content, Backticks);
  }

  /**
    A reply fenced as a Python code block keeps its language tag: the
    backticks are stripped only after the `'python'` characters, so the
    strict parse sees `python` and a newline before the array, and the
    salvage candidate is the array again.
   */
  lemma FencedReplyCleaning(content: string, listText: string)
    requires |listText| >= 2 && listText[0] == '[' && listText[|listText| - 1] == ']'
    requires content == "```python\n" + listText + "\n```"
    ensures CleanOutput(content) == "python\n" + listText + "\n"
    ensures SalvageCandidate(CleanOutput(content)) == listText
  {
    var inner := "python\n" + listText + "\n";
    assert "```" + inner + "```" == content;
    CleanFenced(inner);
    TaggedArraySalvaged(listText);
  }

  /** The salvage candidate of the array behind a `python` tag line is the array. */
  lemma TaggedArraySalvaged(listText: string)
    requires |listText| >= 2 && listText[0] == '[' && listText[|listText| - 1] == ']'
    ensures SalvageCandidate("python\n" + listText + "\n") == listText
  {
    SalvageCandidateOfWrapped("python\n", listText[1..|listText| - 1], "\n");
    assert "python\n" + "[" + listText[1..|listText| - 1] + "]" + "\n" == "python\n" + listText + "\n";
  }

  /** Cleaning a text fenced by three backticks on each side gives back the text. */
  lemma CleanFenced(inner: string)
    requires |inner| >= 1 && inner[0] != '`' && inner[|inner| - 1] != '`'
    ensures CleanOutput("```" + inner + "```") == inner
  {
    var content := "```" + inner + "```";
    assert '`' !in Whitespace && '`' !in PythonChars;
    StripKeeps(content, Whitespace);
    StripKeeps(content, PythonChars);
    StripFence(inner);
  }

  /** Stripping backticks from a text fenced by three of them on each side. */
  lemma StripFence(inner: string)
    requires |inner| >= 1 && inner[0] != '`' && inner[|inner| - 1] != '`'
    ensures Strip("```" + inner + "```", Backticks) == inner
  {
    var s := "```" + inner + "```";
    var left := StripLeft(s, Backticks);
    var n := |s| - |left|;
    assert s[3] == inner[0] && s[3] !in Backticks;
    assert s[0] == s[1] == s[2] == '`';
    assert n <= 3;
    assert left[0] == s[n];
    assert n == 3;
    assert left == inner + "```";
    var right := StripRight(left, Backticks);
    var m := |right|;
    assert left[|inner| - 1] == inner[|inner| - 1] && left[|inner| - 1] !in Backticks;
    assert left[|inner|] == left[|inner| + 1] == left[|inner| + 2] == '`';
    assert m >= |inner|;
    assert right[m - 1] == left[m - 1];
    assert m == |inner|;
    assert right == inner;
  }

  /**
    The two-tier reading by positions: the strict parse of the text when it
    succeeds; otherwise the parse of the span from the first `'['` to the
    last `']'` when there is one, or of `"]"` when there is none; a format
    error when that parse fails too.
   */
  lemma InterpretBySpan(output: string, parse: Parser)
    ensures var salvaged := if HasBracketSpan(output)
                            then parse(output[FirstIndex(output, '[')..LastIndex(output, ']') + 1])
                            else parse("]");
      Interpret(output, parse) ==
        if parse(output).Some? then Strict(parse(output).value)
        else if salvaged.Some? then Salvage(salvaged.value)
        else FormatError
  {
    SalvageCandidateSpan(output);
  }
}
