/**
  The Python string built-ins the transcript generator relies on, over
  `string` (a sequence of characters):
  - `s.split(c)` for a one-character separator `c`;
  - `c.join(parts)` for a one-character separator;
  - `s.strip(chars)` and `s.strip()`, which remove characters of a set
    from both ends.
  Each is specified independently by indices (`FirstIndex`, `LastIndex`,
  `IsSubstring`), and the lemmas connect the two views.
 */
module PyStr {

  /** `r` occurs in `s` as a contiguous run of characters. */
  ghost predicate IsSubstring(r: string, s: string)
  {
    exists a, b | 0 <= a <= b <= |s| :: s[a..b] == r
  }

  /**
    Position of the first occurrence of `c` in `s`, or `|s|` when there is
    none (Python's `s.find(c)`, with `|s|` in place of `-1`).
   */
  function FirstIndex(s: string, c: char): (i: nat)
    ensures i <= |s|
    ensures i < |s| ==> s[i] == c
    ensures forall k | 0 <= k < i :: s[k] != c
  {
    if |s| == 0 then 0
    else if s[0] == c then 0
    else FirstIndex(s[1..], c) + 1
  }

  /** Position of the last occurrence of `c` in `s`, or `-1` when there is none (Python's `s.rfind(c)`). */
  function LastIndex(s: string, c: char): (i: int)
    ensures -1 <= i < |s|
    ensures 0 <= i ==> s[i] == c
    ensures forall k | i < k < |s| :: s[k] != c
  {
    if |s| == 0 then -1
    else
      var l := LastIndex(s[1..], c);
      assert forall k | l + 1 < k < |s| :: s[k] == s[1..][k - 1];
      if l >= 0 then l + 1
      else if s[0] == c then 0
      else -1
  }

  /**
    Python's `s.split(c)`: the maximal runs of `s` between occurrences of
    `c`, read one character at a time (`"".split(c)` is `[""]`).
   */
  function Split(s: string, c: char): (parts: seq<string>)
    ensures |parts| >= 1
  {
    if |s| == 0 then [""]
    else
      var rest := Split(s[1..], c);
      if s[0] == c then [""] + rest
      else [[s[0]] + rest[0]] + rest[1..]
  }

  /** Python's `c.join(parts)`: the parts with one `c` between neighbours. */
  function Join(c: char, parts: seq<string>): string
  {
    if |parts| == 0 then ""
    else if |parts| == 1 then parts[0]
    else parts[0] + [c] + Join(c, parts[1..])
  }

  /** Python's `s.lstrip(chars)`: drop the longest prefix made of `chars`. */
  function StripLeft(s: string, chars: set<char>): (r: string)
    ensures |r| <= |s| && r == s[|s| - |r|..]
    ensures forall k | 0 <= k < |s| - |r| :: s[k] in chars
    ensures r == [] || r[0] !in chars
  {
    if |s| > 0 && s[0] in chars then StripLeft(s[1..], chars) else s
  }

  /** Python's `s.rstrip(chars)`: drop the longest suffix made of `chars`. */
  function StripRight(s: string, chars: set<char>): (r: string)
    ensures |r| <= |s| && r == s[..|r|]
    ensures forall k | |r| <= k < |s| :: s[k] in chars
    ensures r == [] || r[|r| - 1] !in chars
  {
    if |s| > 0 && s[|s| - 1] in chars then StripRight(s[..|s| - 1], chars) else s
  }

  /**
    Python's `s.strip(chars)`: the longest prefix and the longest suffix
    made of `chars` are removed, so both ends of what is left lie outside
    `chars` (`StripIsSubstring` and `StripKeeps` say what is left).
   */
  function Strip(s: string, chars: set<char>): (r: string)
    ensures r == [] || (r[0] !in chars && r[|r| - 1] !in chars)
  {
    StripRight(StripLeft(s, chars), chars)
  }

  /** The characters Python's argument-less `str.strip()` removes. */
  const Whitespace: set<char> :=
    {'\t', '\n', '\U{000B}', '\U{000C}', '\r',
     '\U{001C}', '\U{001D}', '\U{001E}', '\U{001F}', ' ',
     '\U{0085}', '\U{00A0}', '\U{1680}',
     '\U{2000}', '\U{2001}', '\U{2002}', '\U{2003}', '\U{2004}', '\U{2005}',
     '\U{2006}', '\U{2007}', '\U{2008}', '\U{2009}', '\U{200A}',
     '\U{2028}', '\U{2029}', '\U{202F}', '\U{205F}', '\U{3000}'}

  /** The set of characters of a string argument of `strip`. */
  function CharsOf(s: string): (cs: set<char>)
    ensures forall c :: c in cs <==> c in s
  {
    set c | c in s
  }

  /** Substring is transitive: a piece of a piece of `s` is a piece of `s`. */
  lemma SubstringTrans(r: string, m: string, s: string)
    requires IsSubstring(r, m) && IsSubstring(m, s)
    ensures IsSubstring(r, s)
  {
    var a, b :| 0 <= a <= b <= |m| && m[a..b] == r;
    var c, d :| 0 <= c <= d <= |s| && s[c..d] == m;
    SliceOfSlice(s, c, d, a, b);
  }

  /** A slice of a slice is a slice. */
  lemma SliceOfSlice(s: string, c: nat, d: nat, a: nat, b: nat)
    requires c <= d <= |s| && a <= b <= d - c
    ensures s[c..d][a..b] == s[c + a..c + b]
  {
    assert forall k | 0 <= k < b - a :: s[c..d][a..b][k] == s[c + a + k];
  }

  /** What `strip` leaves is a contiguous piece of the text. */
  lemma StripIsSubstring(s: string, chars: set<char>)
    ensures IsSubstring(Strip(s, chars), s)
  {
    var left := StripLeft(s, chars);
    var r := StripRight(left, chars);
    var a := |s| - |left|;
    assert left == s[a..|s|];
    assert r == left[0..|r|];
    SliceOfSlice(s, a, |s|, 0, |r|);
    assert s[a..a + |r|] == r;
  }

  /** A text whose both ends lie outside `chars` is left as it is. */
  lemma StripKeeps(s: string, chars: set<char>)
    requires |s| > 0 && s[0] !in chars && s[|s| - 1] !in chars
    ensures Strip(s, chars) == s
  {
    assert StripLeft(s, chars) == s;
    assert StripRight(s, chars) == s;
  }

  /** `FirstIndex` is determined by its properties. */
  lemma FirstIndexUnique(s: string, c: char, i: nat)
    requires i <= |s| && (i < |s| ==> s[i] == c)
    requires forall k | 0 <= k < i :: s[k] != c
    ensures FirstIndex(s, c) == i
  {
  }

  /** `LastIndex` is determined by its properties. */
  lemma LastIndexUnique(s: string, c: char, i: int)
    requires -1 <= i < |s| && (0 <= i ==> s[i] == c)
    requires forall k | i < k < |s| :: s[k] != c
    ensures LastIndex(s, c) == i
  {
  }

  /** `c` occurs in `s` exactly when either search finds it, and then the first occurrence is not after the last. */
  lemma FirstLastIndex(s: string, c: char)
    ensures FirstIndex(s, c) < |s| <==> c in s
    ensures LastIndex(s, c) >= 0 <==> c in s
    ensures c in s ==> FirstIndex(s, c) <= LastIndex(s, c)
  {
  }

  /** A text splits into one piece exactly when it does not contain the separator, and that piece is the text. */
  lemma {:induction false} SplitSingle(s: string, c: char)
    ensures |Split(s, c)| == 1 <==> c !in s
    ensures c !in s ==> Split(s, c) == [s]
  {
    if |s| > 0 {
      SplitSingle(s[1..], c);
      assert s == [s[0]] + s[1..];
    }
  }

  /** Joining the pieces of a split gives the string back. */
  lemma {:induction false} JoinSplit(s: string, c: char)
    ensures Join(c, Split(s, c)) == s
  {
    if |s| > 0 {
      var rest := Split(s[1..], c);
      JoinSplit(s[1..], c);
      if s[0] == c {
        JoinCons(c, "", rest);
      } else {
        JoinFirstCons(c, s[0], rest);
      }
      assert s == [s[0]] + s[1..];
    }
  }

  /** No piece of a split contains the separator. */
  lemma {:induction false} SplitPiecesFree(s: string, c: char)
    ensures forall k | 0 <= k < |Split(s, c)| :: c !in Split(s, c)[k]
  {
    if |s| > 0 {
      SplitPiecesFree(s[1..], c);
      var rest := Split(s[1..], c);
      if s[0] != c {
        assert c !in [s[0]] + rest[0];
        assert forall k | 1 <= k < |Split(s, c)| :: Split(s, c)[k] == rest[k];
      } else {
        assert forall k | 1 <= k < |Split(s, c)| :: Split(s, c)[k] == rest[k - 1];
      }
    }
  }

  /** Splitting at a separator preceded by a separator-free piece peels that piece off. */
  lemma {:induction false} SplitAppend(p: string, c: char, t: string)
    requires c !in p
    ensures Split(p + [c] + t, c) == [p] + Split(t, c)
  {
    var s := p + [c] + t;
    if |p| == 0 {
      assert s[1..] == t;
    } else {
      assert s[1..] == p[1..] + [c] + t;
      SplitAppend(p[1..], c, t);
      assert [p[0]] + p[1..] == p;
    }
  }

  /** Splitting a join of separator-free pieces gives the pieces back. */
  lemma {:induction false} SplitJoin(parts: seq<string>, c: char)
    requires |parts| >= 1
    requires forall k | 0 <= k < |parts| :: c !in parts[k]
    ensures Split(Join(c, parts), c) == parts
  {
    if |parts| == 1 {
      SplitSingle(parts[0], c);
    } else {
      SplitAppend(parts[0], c, Join(c, parts[1..]));
      SplitJoin(parts[1..], c);
      assert parts == [parts[0]] + parts[1..];
    }
  }

  /** Python's `c.join(s.split(c)[1:])`: everything after the first `c`, or nothing. */
  lemma {:induction false} JoinSplitTail(s: string, c: char)
    ensures FirstIndex(s, c) < |s| ==> Join(c, Split(s, c)[1..]) == s[FirstIndex(s, c) + 1..]
    ensures FirstIndex(s, c) == |s| ==> Join(c, Split(s, c)[1..]) == ""
  {
    if |s| > 0 {
      if s[0] == c {
        assert Split(s, c)[1..] == Split(s[1..], c);
        JoinSplit(s[1..], c);
      } else {
        JoinSplitTail(s[1..], c);
        JoinSplitTailAtOther(s, c);
      }
    }
  }

  /** The step of `JoinSplitTail` when `s` starts with another character than the separator. */
  lemma JoinSplitTailAtOther(s: string, c: char)
    requires |s| > 0 && s[0] != c
    requires var t := s[1..];
      (FirstIndex(t, c) < |t| ==> Join(c, Split(t, c)[1..]) == t[FirstIndex(t, c) + 1..]) &&
      (FirstIndex(t, c) == |t| ==> Join(c, Split(t, c)[1..]) == "")
    ensures FirstIndex(s, c) < |s| ==> Join(c, Split(s, c)[1..]) == s[FirstIndex(s, c) + 1..]
    ensures FirstIndex(s, c) == |s| ==> Join(c, Split(s, c)[1..]) == ""
  {
    var t := s[1..];
    var i := FirstIndex(t, c);
    assert Split(s, c)[1..] == Split(t, c)[1..];
    assert FirstIndex(s, c) == i + 1;
    if i < |t| {
      assert t[i + 1..] == s[i + 2..];
    }
  }

  /** Python's `c.join(s.split(c)[:-1])`: everything before the last `c`, or nothing. */
  lemma {:induction false} JoinSplitInit(s: string, c: char)
    ensures LastIndex(s, c) >= 0 ==> Join(c, Init(Split(s, c))) == s[..LastIndex(s, c)]
    ensures LastIndex(s, c) < 0 ==> Join(c, Init(Split(s, c))) == ""
  {
    if |s| > 0 {
      JoinSplitInit(s[1..], c);
      SplitSingle(s[1..], c);
      FirstLastIndex(s[1..], c);
      if s[0] == c {
        JoinSplitInitAtSep(s, c);
      } else {
        JoinSplitInitAtOther(s, c);
      }
    }
  }

  /** All but the last element. */
  function Init<T>(xs: seq<T>): seq<T>
    requires |xs| >= 1
  {
    xs[..|xs| - 1]
  }

  /** The step of `JoinSplitInit` when `s` starts with the separator. */
  lemma JoinSplitInitAtSep(s: string, c: char)
    requires |s| > 0 && s[0] == c
    requires var l := LastIndex(s[1..], c);
      (l >= 0 ==> Join(c, Init(Split(s[1..], c))) == s[1..][..l]) &&
      (l < 0 ==> Join(c, Init(Split(s[1..], c))) == "")
    requires |Split(s[1..], c)| == 1 <==> LastIndex(s[1..], c) < 0
    ensures LastIndex(s, c) >= 0 && Join(c, Init(Split(s, c))) == s[..LastIndex(s, c)]
  {
    var rest := Split(s[1..], c);
    var l := LastIndex(s[1..], c);
    assert Init(Split(s, c)) == [""] + Init(rest);
    if |rest| == 1 {
      assert Init(rest) == [];
    } else {
      JoinCons(c, "", Init(rest));
      assert s[..l + 1] == [c] + s[1..][..l];
    }
  }

  /** The step of `JoinSplitInit` when `s` starts with another character. */
  lemma JoinSplitInitAtOther(s: string, c: char)
    requires |s| > 0 && s[0] != c
    requires var l := LastIndex(s[1..], c);
      (l >= 0 ==> Join(c, Init(Split(s[1..], c))) == s[1..][..l]) &&
      (l < 0 ==> Join(c, Init(Split(s[1..], c))) == "")
    requires |Split(s[1..], c)| == 1 <==> LastIndex(s[1..], c) < 0
    ensures LastIndex(s, c) >= 0 ==> Join(c, Init(Split(s, c))) == s[..LastIndex(s, c)]
    ensures LastIndex(s, c) < 0 ==> Join(c, Init(Split(s, c))) == ""
  {
    var rest := Split(s[1..], c);
    var l := LastIndex(s[1..], c);
    if |rest| == 1 {
      assert Init(Split(s, c)) == [];
    } else {
      var init := Init(rest);
      assert Init(Split(s, c)) == [[s[0]] + init[0]] + init[1..];
      JoinFirstCons(c, s[0], init);
      assert s[..l + 1] == [s[0]] + s[1..][..l];
    }
  }

  /** Joining after a character is put before the first piece puts it before the join. */
  lemma JoinFirstCons(c: char, x: char, parts: seq<string>)
    requires |parts| >= 1
    ensures Join(c, [[x] + parts[0]] + parts[1..]) == [x] + Join(c, parts)
  {
    var q := [[x] + parts[0]] + parts[1..];
    if |parts| > 1 {
      assert q[1..] == parts[1..];
    }
  }

  lemma JoinCons(c: char, x: string, ys: seq<string>)
    requires |ys| >= 1
    ensures Join(c, [x] + ys) == x + [c] + Join(c, ys)
  {
    assert ([x] + ys)[1..] == ys;
  }

  /** The last `c` of a suffix `s[k..]`, when there is one, is the last `c` of `s`. */
  lemma LastIndexAfter(s: string, c: char, k: nat, l: int)
    requires k <= |s| && 0 <= l && l == LastIndex(s[k..], c)
    ensures LastIndex(s, c) == k + l
  {
    assert forall j | k + l < j < |s| :: s[j] == s[k..][j - k];
    LastIndexUnique(s, c, k + l);
  }

  /** The last `c` of `s`, seen from a cut at or before it. */
  lemma LastIndexOfSuffix(s: string, c: char, k: nat)
    requires k <= LastIndex(s, c)
    ensures LastIndex(s[k..], c) == LastIndex(s, c) - k
  {
    var j := LastIndex(s, c);
    var t := s[k..];
    assert t[j - k] == c;
    assert forall m | j - k < m < |t| :: t[m] == s[m + k];
    LastIndexUnique(t, c, j - k);
  }

  /** A prefix of a suffix is a slice. */
  lemma SliceOfSuffix(s: string, i: nat, n: nat)
    requires i + n <= |s|
    ensures s[i..][..n] == s[i..i + n]
  {
  }
}
