/**
 * Character classes and the few string operations of Python's `str` and `re`
 * that the notation compiler uses: `strip()`, `re.split(r'\s+', s)`,
 * `' '.join(...)`, `'\n'.join(...)`, `lower()` and prefix tests.
 */
module Text {

  /** Python's whitespace (`str.isspace()`, and `\s` in a `str` pattern). */
  predicate IsSpace(c: char)
  {
    c == ' ' || ('\t' <= c <= '\r') || ('\U{001C}' <= c <= '\U{001F}')
    || c == '\U{0085}' || c == '\U{00A0}' || c == '\U{1680}'
    || ('\U{2000}' <= c <= '\U{200A}') || c == '\U{2028}' || c == '\U{2029}'
    || c == '\U{202F}' || c == '\U{205F}' || c == '\U{3000}'
  }

  /** `\d`, restricted to the ASCII digits. */
  predicate IsDigit(c: char)
  {
    '0' <= c <= '9'
  }

  /** The three bar delimiters `|`, `[` and `]` (the class `[|\[\]]`). */
  predicate IsDelim(c: char)
  {
    c == '|' || c == '[' || c == ']'
  }

  predicate HasNoSpace(s: string)
  {
    forall i :: 0 <= i < |s| ==> !IsSpace(s[i])
  }

  /** Neither end of `s` is whitespace: what `strip()` leaves. */
  predicate IsStripped(s: string)
  {
    s == [] || (!IsSpace(s[0]) && !IsSpace(s[|s| - 1]))
  }

  predicate StartsWith(s: string, p: string)
  {
    |p| <= |s| && s[..|p|] == p
  }

  /** Drops leading whitespace (`lstrip()`). */
  function TrimStart(s: string): (r: string)
    ensures |r| <= |s| && r == s[|s| - |r|..]
    ensures r == [] || !IsSpace(r[0])
    ensures forall i :: 0 <= i < |s| - |r| ==> IsSpace(s[i])
  {
    if s != [] && IsSpace(s[0]) then
      var r := TrimStart(s[1..]);
      TrimStartStep(s, s[1..], r);
      r
    else s
  }

  lemma TrimStartStep(s: string, t: string, r: string)
    requires s != [] && IsSpace(s[0]) && t == s[1..]
    requires |r| <= |t| && r == t[|t| - |r|..]
    requires forall i :: 0 <= i < |t| - |r| ==> IsSpace(t[i])
    ensures r == s[|s| - |r|..]
    ensures forall i :: 0 <= i < |s| - |r| ==> IsSpace(s[i])
  {
    forall i | 0 < i < |s| - |r|
      ensures IsSpace(s[i])
    {
      assert s[i] == t[i - 1];
    }
  }

  /** Drops trailing whitespace (`rstrip()`). */
  function TrimEnd(s: string): (r: string)
    ensures |r| <= |s| && r == s[..|r|]
    ensures r == [] || !IsSpace(r[|r| - 1])
    ensures forall i :: |r| <= i < |s| ==> IsSpace(s[i])
  {
    if s != [] && IsSpace(s[|s| - 1]) then
      var r := TrimEnd(s[..|s| - 1]);
      TrimEndStep(s, s[..|s| - 1], r);
      r
    else s
  }

  lemma TrimEndStep(s: string, t: string, r: string)
    requires s != [] && IsSpace(s[|s| - 1]) && t == s[..|s| - 1]
    requires |r| <= |t| && r == t[..|r|]
    requires forall i :: |r| <= i < |t| ==> IsSpace(t[i])
    ensures r == s[..|r|]
    ensures forall i :: |r| <= i < |s| ==> IsSpace(s[i])
  {
    forall i | |r| <= i < |s| - 1
      ensures IsSpace(s[i])
    {
      assert s[i] == t[i];
    }
  }

  /**
   * `str.strip()`: the contiguous middle of `s` left once the leading and
   * trailing whitespace is cut away.
   */
  function Strip(s: string): (r: string)
    ensures IsStripped(r) && |r| <= |s|
    ensures exists a: nat :: StripCut(s, a, r)
  {
    StripCutOfTrims(s);
    TrimEnd(TrimStart(s))
  }

  lemma StripCutOfTrims(s: string)
    ensures StripCut(s, |s| - |TrimStart(s)|, TrimEnd(TrimStart(s)))
  {
    var t := TrimStart(s);
    CutOfSlices(s, |s| - |t|, t, TrimEnd(t));
  }

  /** `r` is a prefix of the suffix `t` of `s`, and whitespace surrounds it. */
  lemma CutOfSlices(s: string, a: nat, t: string, r: string)
    requires a <= |s| && t == s[a..] && |r| <= |t| && r == t[..|r|]
    requires forall i :: 0 <= i < a ==> IsSpace(s[i])
    requires forall i :: |r| <= i < |t| ==> IsSpace(t[i])
    ensures StripCut(s, a, r)
  {
    assert r == s[a..a + |r|];
    forall i | a + |r| <= i < |s|
      ensures IsSpace(s[i])
    {
      assert s[i] == t[i - a];
    }
  }

  /** `r` is `s[a..a + |r|]`, and all of `s` outside that slice is whitespace. */
  predicate StripCut(s: string, a: nat, r: string)
  {
    a + |r| <= |s| && r == s[a..a + |r|]
    && (forall i :: 0 <= i < a ==> IsSpace(s[i]))
    && (forall i :: a + |r| <= i < |s| ==> IsSpace(s[i]))
  }

  lemma {:induction false} TrimStartIs(s: string, a: nat)
    requires a <= |s| && (a < |s| ==> !IsSpace(s[a]))
    requires forall i :: 0 <= i < a ==> IsSpace(s[i])
    ensures TrimStart(s) == s[a..]
    decreases a
  {
    if a > 0 {
      TrimStartIs(s[1..], a - 1);
      assert s[1..][a - 1..] == s[a..];
    }
  }

  lemma {:induction false} TrimEndIs(t: string, b: nat)
    requires b <= |t| && (b > 0 ==> !IsSpace(t[b - 1]))
    requires forall i :: b <= i < |t| ==> IsSpace(t[i])
    ensures TrimEnd(t) == t[..b]
    decreases |t| - b
  {
    if b < |t| {
      TrimEndIs(t[..|t| - 1], b);
      assert t[..|t| - 1][..b] == t[..b];
    }
  }

  /** The stripped middle slice is unique: any non-empty one is what `strip()` returns. */
  lemma StripUnique(s: string, a: nat, r: string)
    requires StripCut(s, a, r) && IsStripped(r) && r != []
    ensures Strip(s) == r
  {
    StripIsTrims(s);
    TrimsCut(s, a, r);
  }

  lemma TrimsCut(s: string, a: nat, r: string)
    requires StripCut(s, a, r) && IsStripped(r) && r != []
    ensures TrimEnd(TrimStart(s)) == r
  {
    assert s[a] == r[0];
    TrimStartIs(s, a);
    CutTail(s, a, r);
  }

  lemma CutTail(s: string, a: nat, r: string)
    requires StripCut(s, a, r) && IsStripped(r) && r != []
    ensures TrimEnd(s[a..]) == r
  {
    var t := s[a..];
    assert t[|r| - 1] == r[|r| - 1];
    forall i | |r| <= i < |t|
      ensures IsSpace(t[i])
    {
      assert t[i] == s[a + i];
    }
    TrimEndIs(t, |r|);
    assert t[..|r|] == r;
  }

  lemma StripIsTrims(s: string)
    ensures Strip(s) == TrimEnd(TrimStart(s))
  {
  }

  lemma StripKeepsStripped(s: string)
    requires IsStripped(s)
    ensures Strip(s) == s
  {
  }

  /** The first index at or after `i` holding whitespace, or `|s|`. */
  function SpaceFrom(s: string, i: nat): (k: nat)
    requires i <= |s|
    ensures i <= k <= |s|
    ensures k < |s| ==> IsSpace(s[k])
    ensures forall j :: i <= j < k ==> !IsSpace(s[j])
    decreases |s| - i
  {
    if i == |s| || IsSpace(s[i]) then i else SpaceFrom(s, i + 1)
  }

  /** The first index at or after `i` holding no whitespace, or `|s|`. */
  function SkipSpaces(s: string, i: nat): (k: nat)
    requires i <= |s|
    ensures i <= k <= |s|
    ensures k < |s| ==> !IsSpace(s[k])
    ensures forall j :: i <= j < k ==> IsSpace(s[j])
    decreases |s| - i
  {
    if i == |s| || !IsSpace(s[i]) then i else SkipSpaces(s, i + 1)
  }

  /**
   * `re.split(r'\s+', s)`: the pieces between maximal whitespace runs, with
   * an empty first (last) piece when `s` starts (ends) with whitespace.
   */
  function SplitWS(s: string): (r: seq<string>)
    ensures |r| >= 1
    ensures forall k :: 0 <= k < |r| ==> HasNoSpace(r[k])
    decreases |s|
  {
    var i := SpaceFrom(s, 0);
    if i == |s| then [s]
    else
      var j := SkipSpaces(s, i);
      [s[..i]] + SplitWS(s[j..])
  }

  /** The characters of `s` that are not whitespace, in order. */
  function RemoveSpaces(s: string): (r: string)
    ensures HasNoSpace(r) && |r| <= |s|
  {
    if s == [] then []
    else if IsSpace(s[0]) then RemoveSpaces(s[1..])
    else [s[0]] + RemoveSpaces(s[1..])
  }

  function Concat(ss: seq<string>): string
  {
    if ss == [] then [] else ss[0] + Concat(ss[1..])
  }

  /** `sep.join(ws)`. */
  function Join(ws: seq<string>, sep: string): string
  {
    if |ws| == 0 then []
    else if |ws| == 1 then ws[0]
    else ws[0] + sep + Join(ws[1..], sep)
  }

  /** `lower()`, restricted to the ASCII letters. */
  function LowerChar(c: char): char
  {
    if 'A' <= c <= 'Z' then (c as int + 32) as char else c
  }

  function Lower(s: string): (r: string)
    ensures |r| == |s|
    ensures forall i :: 0 <= i < |s| ==> r[i] == LowerChar(s[i])
  {
    seq(|s|, i requires 0 <= i < |s| => LowerChar(s[i]))
  }

  /** `re.match('(?i:' + p + ')', s)` for a lower-case literal `p`. */
  predicate StartsWithIgnoreCase(s: string, p: string)
  {
    |p| <= |s| && Lower(s[..|p|]) == p
  }

  // ---------------------------------------------------------------- lemmas

  lemma {:induction false} SplitStrippedPieces(s: string)
    requires IsStripped(s) && s != []
    ensures forall k :: 0 <= k < |SplitWS(s)| ==> SplitWS(s)[k] != []
    decreases |s|
  {
    var i := SpaceFrom(s, 0);
    if i < |s| {
      var j := SkipSpaces(s, i);
      assert !IsSpace(s[|s| - 1]);
      assert j < |s|;
      var rest := s[j..];
      assert rest[0] == s[j] && rest[|rest| - 1] == s[|s| - 1];
      SplitStrippedPieces(rest);
      assert SplitWS(s) == [s[..i]] + SplitWS(rest);
    }
  }

  lemma {:induction false} SpaceFromIs(s: string, i: nat, k: nat)
    requires i <= k <= |s| && (k < |s| ==> IsSpace(s[k]))
    requires forall j :: i <= j < k ==> !IsSpace(s[j])
    ensures SpaceFrom(s, i) == k
    decreases k - i
  {
    if i < k {
      SpaceFromIs(s, i + 1, k);
    }
  }

  lemma {:induction false} SkipSpacesIs(s: string, i: nat, k: nat)
    requires i <= k <= |s| && (k < |s| ==> !IsSpace(s[k]))
    requires forall j :: i <= j < k ==> IsSpace(s[j])
    ensures SkipSpaces(s, i) == k
    decreases k - i
  {
    if i < k {
      SkipSpacesIs(s, i + 1, k);
    }
  }

  predicate IsWord(w: string)
  {
    w != [] && HasNoSpace(w)
  }

  /**
   * Splitting on whitespace undoes joining non-empty, whitespace-free words
   * with single spaces.
   */
  lemma {:induction false} SplitJoinWords(ws: seq<string>)
    requires |ws| >= 1 && forall k :: 0 <= k < |ws| ==> IsWord(ws[k])
    ensures SplitWS(Join(ws, " ")) == ws
  {
    var w := ws[0];
    SpaceFromIs(w, 0, |w|);
    if |ws| > 1 {
      var t := Join(ws[1..], " ");
      assert Join(ws, " ") == w + " " + t;
      JoinHead(ws[1..], " ");
      assert t[0] == ws[1][0];
      assert IsGap(" ");
      SplitWordGap(w, " ", t);
      SplitJoinWords(ws[1..]);
      assert ws == [w] + ws[1..];
    }
  }

  /** A separator `\s+` can match: non-empty and all whitespace. */
  predicate IsGap(sep: string)
  {
    sep != [] && forall j :: 0 <= j < |sep| ==> IsSpace(sep[j])
  }

  /** `ws[0] + seps[0] + ws[1] + ... + ws[|ws| - 1]`. */
  function Interleave(ws: seq<string>, seps: seq<string>): (r: string)
    requires |ws| >= 1 && |seps| == |ws| - 1
    ensures StartsWith(r, ws[0])
  {
    if |ws| == 1 then ws[0] else ws[0] + seps[0] + Interleave(ws[1..], seps[1..])
  }

  /**
   * Splitting on whitespace undoes gluing non-empty, whitespace-free words
   * with any whitespace runs, whatever characters and lengths they have.
   */
  lemma {:induction false} SplitInterleave(ws: seq<string>, seps: seq<string>)
    requires |ws| >= 1 && |seps| == |ws| - 1
    requires forall k :: 0 <= k < |ws| ==> IsWord(ws[k])
    requires forall k :: 0 <= k < |seps| ==> IsGap(seps[k])
    ensures SplitWS(Interleave(ws, seps)) == ws
  {
    var w := ws[0];
    SpaceFromIs(w, 0, |w|);
    if |ws| > 1 {
      var t := Interleave(ws[1..], seps[1..]);
      assert Interleave(ws, seps) == w + seps[0] + t;
      assert t[0] == ws[1][0];
      SplitWordGap(w, seps[0], t);
      SplitInterleave(ws[1..], seps[1..]);
      assert ws == [w] + ws[1..];
    }
  }

  /** `G \t C`: a mixed run of a space, a tab and a space is one separator. */
  lemma MixedGapSplits()
    ensures SplitWS("G \t C") == ["G", "C"]
  {
    assert IsWord("G") && IsWord("C") && IsGap(" \t ");
    assert Interleave(["G", "C"], [" \t "]) == "G \t C";
    SplitInterleave(["G", "C"], [" \t "]);
  }

  /** A word, a whitespace run, then text starting with no space: the word is the first piece. */
  lemma SplitWordGap(w: string, sep: string, t: string)
    requires IsWord(w) && IsGap(sep) && t != [] && !IsSpace(t[0])
    ensures SplitWS(w + sep + t) == [w] + SplitWS(t)
  {
    var s := w + sep + t;
    SpaceFromIs(s, 0, |w|);
    assert SkipSpaces(s, |w|) == |w| + |sep| by {
      assert s[|w| + |sep|] == t[0];
      assert forall j :: |w| <= j < |w| + |sep| ==> s[j] == sep[j - |w|];
      SkipSpacesIs(s, |w|, |w| + |sep|);
    }
    assert s[..|w|] == w && s[|w| + |sep|..] == t;
  }

  lemma SplitEmpty()
    ensures SplitWS("") == [""]
  {
  }

  lemma {:induction false} RemoveSpacesAppend(a: string, b: string)
    ensures RemoveSpaces(a + b) == RemoveSpaces(a) + RemoveSpaces(b)
    decreases |a|
  {
    if a != [] {
      assert (a + b)[1..] == a[1..] + b;
      RemoveSpacesAppend(a[1..], b);
    } else {
      assert a + b == b;
    }
  }

  lemma {:induction false} RemoveSpacesAll(s: string)
    requires forall i :: 0 <= i < |s| ==> IsSpace(s[i])
    ensures RemoveSpaces(s) == []
    decreases |s|
  {
    if s != [] {
      RemoveSpacesAll(s[1..]);
    }
  }

  lemma {:induction false} RemoveSpacesNone(s: string)
    requires HasNoSpace(s)
    ensures RemoveSpaces(s) == s
    decreases |s|
  {
    if s != [] {
      RemoveSpacesNone(s[1..]);
    }
  }

  lemma ConcatAppend(a: seq<string>, b: seq<string>)
    ensures Concat(a + b) == Concat(a) + Concat(b)
    decreases |a|
  {
    if a != [] {
      assert (a + b)[1..] == a[1..] + b;
      ConcatAppend(a[1..], b);
    } else {
      assert a + b == b;
    }
  }

  lemma TrimStartKeepsNonSpaces(s: string)
    ensures RemoveSpaces(TrimStart(s)) == RemoveSpaces(s)
  {
    var t := TrimStart(s);
    var a := s[..|s| - |t|];
    assert s == a + t;
    RemoveSpacesAppend(a, t);
    RemoveSpacesAll(a);
  }

  lemma TrimEndKeepsNonSpaces(t: string)
    ensures RemoveSpaces(TrimEnd(t)) == RemoveSpaces(t)
  {
    var r := TrimEnd(t);
    var b := t[|r|..];
    assert t == r + b;
    RemoveSpacesAppend(r, b);
    RemoveSpacesAll(b);
  }

  lemma ConcatSingle(s: string)
    ensures Concat([s]) == s
  {
    assert Concat([s]) == s + Concat([]);
  }

  lemma ConcatSnoc(ss: seq<string>)
    requires ss != []
    ensures Concat(ss) == Concat(ss[..|ss| - 1]) + ss[|ss| - 1]
  {
    assert ss == ss[..|ss| - 1] + [ss[|ss| - 1]];
    ConcatAppend(ss[..|ss| - 1], [ss[|ss| - 1]]);
    ConcatSingle(ss[|ss| - 1]);
  }

  /** Stripping removes whitespace only. */
  lemma StripKeepsNonSpaces(s: string)
    ensures RemoveSpaces(Strip(s)) == RemoveSpaces(s)
  {
    TrimStartKeepsNonSpaces(s);
    TrimEndKeepsNonSpaces(TrimStart(s));
  }

  lemma Split3<T>(s: seq<T>, i: nat, j: nat)
    requires i <= j <= |s|
    ensures s == s[..i] + (s[i..j] + s[j..])
  {
  }

  /** Splitting on whitespace loses no other character and keeps their order. */
  lemma {:induction false} SplitKeepsNonSpaces(s: string)
    ensures Concat(SplitWS(s)) == RemoveSpaces(s)
    decreases |s|
  {
    var i := SpaceFrom(s, 0);
    if i == |s| {
      RemoveSpacesNone(s);
      ConcatSingle(s);
    } else {
      var j := SkipSpaces(s, i);
      var a, b, c := s[..i], s[i..j], s[j..];
      assert HasNoSpace(a);
      calc {
        Concat(SplitWS(s));
        Concat([a] + SplitWS(c));
        { ConcatAppend([a], SplitWS(c)); ConcatSingle(a); }
        a + Concat(SplitWS(c));
        { SplitKeepsNonSpaces(c); }
        a + RemoveSpaces(c);
        { RemoveSpacesNone(a); RemoveSpacesAll(b); }
        RemoveSpaces(a) + (RemoveSpaces(b) + RemoveSpaces(c));
        { RemoveSpacesAppend(b, c); RemoveSpacesAppend(a, b + c); }
        RemoveSpaces(a + (b + c));
        { Split3(s, i, j); }
        RemoveSpaces(s);
      }
    }
  }

  // --------------------------------------------------- joining lines back

  predicate EndsWith(s: string, p: string)
  {
    |p| <= |s| && s[|s| - |p|..] == p
  }

  /** `s.split(c)` for a one-character separator. */
  function SplitOn(s: string, c: char): (r: seq<string>)
    ensures |r| >= 1
  {
    if s == [] then [[]]
    else
      var rest := SplitOn(s[1..], c);
      if s[0] == c then [[]] + rest else [[s[0]] + rest[0]] + rest[1..]
  }

  lemma {:induction false} SplitOnNone(w: string, c: char)
    requires c !in w
    ensures SplitOn(w, c) == [w]
  {
    if w != [] {
      SplitOnNone(w[1..], c);
      assert [w[0]] + w[1..] == w;
    }
  }

  lemma {:induction false} SplitOnFirst(a: string, c: char, t: string)
    requires c !in a
    ensures SplitOn(a + [c] + t, c) == [a] + SplitOn(t, c)
  {
    if a == [] {
      assert a + [c] + t == [c] + t;
    } else {
      assert (a + [c] + t)[1..] == a[1..] + [c] + t;
      SplitOnFirst(a[1..], c, t);
      assert [a[0]] + a[1..] == a;
    }
  }

  /** Splitting on the separator undoes `'\n'.join(ws)` when no piece holds it. */
  lemma {:induction false} SplitJoin(ws: seq<string>, c: char)
    requires |ws| >= 1 && forall i :: 0 <= i < |ws| ==> c !in ws[i]
    ensures SplitOn(Join(ws, [c]), c) == ws
  {
    if |ws| == 1 {
      SplitOnNone(ws[0], c);
    } else {
      SplitOnFirst(ws[0], c, Join(ws[1..], [c]));
      SplitJoin(ws[1..], c);
    }
  }

  lemma {:induction false} JoinSnoc(ws: seq<string>, sep: string, x: string)
    requires |ws| >= 1
    ensures Join(ws + [x], sep) == Join(ws, sep) + sep + x
  {
    if |ws| > 1 {
      assert (ws + [x])[1..] == ws[1..] + [x];
      JoinSnoc(ws[1..], sep, x);
    }
  }

  lemma JoinHead(ws: seq<string>, sep: string)
    requires |ws| >= 1
    ensures StartsWith(Join(ws, sep), ws[0])
  {
  }
}
