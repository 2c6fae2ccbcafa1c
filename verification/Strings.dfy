/** The string methods the services use, over ASCII text. */
module Strings {

  predicate IsSpace(c: char) {
    '\t' <= c <= '\r' || 0x1c <= c as int <= 0x1f || c == ' '
  }

  predicate IsUpper(c: char) { 'A' <= c <= 'Z' }
  predicate IsLower(c: char) { 'a' <= c <= 'z' }
  predicate IsDigit(c: char) { '0' <= c <= '9' }

  function ToLower(c: char): char {
    if IsUpper(c) then (c as int + 32) as char else c
  }

  /** s.lower() */
  function Lower(s: string): (r: string)
    ensures |r| == |s| && forall k :: 0 <= k < |s| ==> r[k] == ToLower(s[k])
  {
    seq(|s|, k requires 0 <= k < |s| => ToLower(s[k]))
  }

  function ToUpper(c: char): char {
    if IsLower(c) then (c as int - 32) as char else c
  }

  /** s.upper() */
  function Upper(s: string): (r: string)
    ensures |r| == |s| && forall k :: 0 <= k < |s| ==> r[k] == ToUpper(s[k])
  {
    seq(|s|, k requires 0 <= k < |s| => ToUpper(s[k]))
  }

  predicate IsLetter(c: char) { IsUpper(c) || IsLower(c) }

  /** Position `k` of s.title(). */
  function TitledChar(s: string, k: nat): char
    requires k < |s|
  {
    if k > 0 && IsLetter(s[k - 1]) then ToLower(s[k]) else ToUpper(s[k])
  }

  /** s.title(): the first letter of each run of letters in upper case, the others in lower. */
  function Title(s: string): (r: string)
    ensures |r| == |s| && forall k :: 0 <= k < |s| ==> r[k] == TitledChar(s, k)
  {
    seq(|s|, k requires 0 <= k < |s| => TitledChar(s, k))
  }

  lemma CaseOfChar(c: char, d: char)
    requires ToLower(c) == ToLower(d)
    ensures ToUpper(c) == ToUpper(d) && IsLetter(c) == IsLetter(d)
  {
  }

  lemma CaseKeepsKind(c: char)
    ensures IsLetter(ToLower(c)) == IsLetter(c) == IsLetter(ToUpper(c))
    ensures IsSpace(ToLower(c)) == IsSpace(c) == IsSpace(ToUpper(c))
    ensures ToLower(ToLower(c)) == ToLower(c) == ToLower(ToUpper(c))
    ensures ToUpper(ToUpper(c)) == ToUpper(c) == ToUpper(ToLower(c))
  {
  }

  /** Title-casing forgets how a text was capitalized. */
  lemma TitleForgetsCase(s: string, t: string)
    requires Lower(s) == Lower(t)
    ensures Title(s) == Title(t)
  {
    assert |s| == |Lower(s)| == |Lower(t)| == |t|;
    forall k | 0 <= k < |s| ensures TitledChar(s, k) == TitledChar(t, k) {
      assert ToLower(s[k]) == Lower(s)[k] == Lower(t)[k] == ToLower(t[k]);
      CaseOfChar(s[k], t[k]);
      if k > 0 {
        assert ToLower(s[k - 1]) == Lower(s)[k - 1] == Lower(t)[k - 1] == ToLower(t[k - 1]);
        CaseOfChar(s[k - 1], t[k - 1]);
      }
    }
  }

  lemma TitleChars(s: string, k: nat)
    requires k < |s|
    ensures IsLetter(Title(s)[k]) == IsLetter(s[k]) && IsSpace(Title(s)[k]) == IsSpace(s[k])
    ensures ToLower(Title(s)[k]) == ToLower(s[k]) && ToUpper(Title(s)[k]) == ToUpper(s[k])
  {
    assert Title(s)[k] == TitledChar(s, k);
    CaseKeepsKind(s[k]);
  }

  lemma TitledCharTwice(s: string, k: nat)
    requires k < |s|
    ensures TitledChar(Title(s), k) == TitledChar(s, k)
  {
    TitleChars(s, k);
    if k > 0 { TitleChars(s, k - 1); }
  }

  /** Title-casing once is enough. */
  lemma TitleTwice(s: string)
    ensures Title(Title(s)) == Title(s)
  {
    forall k | 0 <= k < |s| ensures TitledChar(Title(s), k) == TitledChar(s, k) { TitledCharTwice(s, k); }
  }

  lemma LowerOfTitle(s: string)
    ensures Lower(Title(s)) == Lower(s)
  {
    forall k | 0 <= k < |s| ensures Lower(Title(s))[k] == Lower(s)[k] { TitleChars(s, k); }
  }

  lemma UpperTwice(s: string)
    ensures Lower(Upper(s)) == Lower(s) && Upper(Upper(s)) == Upper(s)
  {
    forall k | 0 <= k < |s| ensures Lower(Upper(s))[k] == Lower(s)[k] && Upper(Upper(s))[k] == Upper(s)[k] {
      CaseKeepsKind(s[k]);
    }
  }

  function LeftStrip(s: string): (r: string)
    ensures r == [] || !IsSpace(r[0])
  {
    if s != [] && IsSpace(s[0]) then LeftStrip(s[1..]) else s
  }

  function RightStrip(s: string): (r: string)
    ensures r <= s && (r == [] || !IsSpace(r[|r| - 1]))
  {
    if s != [] && IsSpace(s[|s| - 1]) then RightStrip(s[..|s| - 1]) else s
  }

  /** s.strip() */
  function Strip(s: string): string {
    RightStrip(LeftStrip(s))
  }

  /** A name as the extractor leaves it: stripping and title-casing would not change it. */
  predicate IsNormalName(s: string) {
    Strip(s) == s && Title(s) == s
  }

  lemma NothingToStrip(s: string)
    requires s == [] || (!IsSpace(s[0]) && !IsSpace(s[|s| - 1]))
    ensures Strip(s) == s
  {
  }

  lemma StripAndTitleNormalize(s: string)
    ensures IsNormalName(Title(Strip(s)))
  {
    var stripped := Strip(s);
    TitleTwice(stripped);
    if stripped != [] {
      assert stripped[0] == LeftStrip(s)[0];
      TitleChars(stripped, 0);
      TitleChars(stripped, |stripped| - 1);
    }
    NothingToStrip(Title(stripped));
  }

  /** s.rstrip(".") */
  function RightStripDots(s: string): string {
    if s != [] && s[|s| - 1] == '.' then RightStripDots(s[..|s| - 1]) else s
  }

  /** separator.join(parts) */
  function Join(separator: string, parts: seq<string>): string {
    if parts == [] then ""
    else if |parts| == 1 then parts[0]
    else parts[0] + separator + Join(separator, parts[1..])
  }

  /** The pieces of a text with `c` put in front of it. */
  function Extended(c: char, parts: seq<string>): (r: seq<string>)
    requires parts != []
    ensures r != []
  {
    if c == '.' then [""] + parts else [[c] + parts[0]] + parts[1..]
  }

  /** s.split(".") */
  function SplitDots(s: string): (parts: seq<string>)
    ensures parts != []
  {
    if s == [] then [""] else Extended(s[0], SplitDots(s[1..]))
  }

  /** The pieces put back together are the text, and no piece holds a dot. */
  lemma {:induction false} SplitThenJoin(s: string)
    ensures Join(".", SplitDots(s)) == s
    ensures forall p :: p in SplitDots(s) ==> '.' !in p
  {
    if s != [] {
      SplitThenJoin(s[1..]);
      var rest := SplitDots(s[1..]);
      if s[0] == '.' {
        assert ([""] + rest)[1..] == rest;
        assert s == "" + "." + s[1..];
      } else {
        var parts := SplitDots(s);
        assert parts == [[s[0]] + rest[0]] + rest[1..];
        assert parts[1..] == rest[1..];
        assert s == [s[0]] + s[1..];
        if |rest| > 1 {
          assert [s[0]] + (rest[0] + "." + Join(".", rest[1..])) == ([s[0]] + rest[0]) + "." + Join(".", rest[1..]);
        }
        forall p | p in parts ensures '.' !in p {
          assert rest[0] in rest;
          if p != parts[0] {
            assert p in rest[1..];
            assert p in rest;
          }
        }
      }
    }
  }

  /** A text splits in one way at the first occurrence of a character. */
  lemma SplitAtFirst(c: char, u: string, v: string, s: string, t: string)
    requires u + [c] + s == v + [c] + t && c !in u && c !in v
    ensures u == v && s == t
  {
    var w := u + [c] + s;
    assert w[|u|] == c && w[|v|] == c;
    assert forall k :: 0 <= k < |u| ==> u[k] == w[k];
    assert forall k :: 0 <= k < |v| ==> v[k] == w[k];
    assert w[..|u|] == u && w[..|v|] == v && w[|u| + 1..] == s && w[|v| + 1..] == t;
  }

  /** Splitting distributes over a joining dot. */
  lemma {:induction false} SplitJoined(a: string, b: string)
    ensures SplitDots(a + "." + b) == SplitDots(a) + SplitDots(b)
  {
    var t := a + "." + b;
    if a == [] {
      assert t[0] == '.' && t[1..] == b;
    } else {
      SplitJoined(a[1..], b);
      assert t[1..] == a[1..] + "." + b;
      ExtendedBefore(a[0], SplitDots(a[1..]), SplitDots(b));
    }
  }

  lemma ExtendedBefore(c: char, first: seq<string>, second: seq<string>)
    requires first != []
    ensures Extended(c, first + second) == Extended(c, first) + second
  {
    assert (first + second)[1..] == first[1..] + second;
  }

  // --- What they leave -------------------------------------------------------------------------

  predicate AllSpace(s: string) { forall k :: 0 <= k < |s| ==> IsSpace(s[k]) }

  predicate AllDots(s: string) { forall k :: 0 <= k < |s| ==> s[k] == '.' }

  /** Stripping takes white space off both ends and nothing else. */
  lemma StripParts(s: string) returns (lead: string, tail: string)
    ensures s == lead + Strip(s) + tail && AllSpace(lead) && AllSpace(tail)
    ensures Strip(s) == "" || (!IsSpace(Strip(s)[0]) && !IsSpace(Strip(s)[|Strip(s)| - 1]))
  {
    lead := LeftStripped(s);
    var left := LeftStrip(s);
    tail := RightStripped(left);
    assert RightStrip(left) != "" ==> RightStrip(left)[0] == left[0];
  }

  lemma {:induction false} LeftStripped(s: string) returns (lead: string)
    ensures s == lead + LeftStrip(s) && AllSpace(lead)
  {
    if s != [] && IsSpace(s[0]) {
      var rest := LeftStripped(s[1..]);
      lead := [s[0]] + rest;
      assert s == [s[0]] + s[1..];
    } else {
      lead := "";
    }
  }

  lemma {:induction false} RightStripped(s: string) returns (tail: string)
    ensures s == RightStrip(s) + tail && AllSpace(tail)
  {
    if s != [] && IsSpace(s[|s| - 1]) {
      var rest := RightStripped(s[..|s| - 1]);
      tail := rest + [s[|s| - 1]];
      assert s == s[..|s| - 1] + [s[|s| - 1]];
    } else {
      tail := "";
    }
  }

  lemma {:induction false} DotsStripped(s: string) returns (dots: string)
    ensures s == RightStripDots(s) + dots && AllDots(dots)
    ensures RightStripDots(s) == "" || RightStripDots(s)[|RightStripDots(s)| - 1] != '.'
  {
    if s != [] && s[|s| - 1] == '.' {
      var rest := DotsStripped(s[..|s| - 1]);
      dots := rest + [s[|s| - 1]];
      assert s == s[..|s| - 1] + [s[|s| - 1]];
    } else {
      dots := "";
    }
  }

  /** Case concerns the letters only, and each letter by itself; title case depends on whether a
      letter comes just before. */
  lemma CaseOfTexts(s: string, k: nat)
    requires k < |s|
    ensures Lower(s)[k] == if 'A' <= s[k] <= 'Z' then (s[k] as int + 32) as char else s[k]
    ensures Upper(s)[k] == if 'a' <= s[k] <= 'z' then (s[k] as int - 32) as char else s[k]
    ensures Title(s)[k] ==
      if k > 0 && ('A' <= s[k - 1] <= 'Z' || 'a' <= s[k - 1] <= 'z') then Lower(s)[k] else Upper(s)[k]
  {
    assert Title(s)[k] == TitledChar(s, k);
  }

  /** White space: tab to carriage return, the four separators, and the blank. */
  lemma WhiteSpaceIs(c: char)
    ensures IsSpace(c) <==> c as int in {9, 10, 11, 12, 13, 28, 29, 30, 31, 32}
  {
  }
}
