/**
 Validation of a new poll's texts. A text is a sequence of Unicode code points; its length is that of its UTF-8 form.
 Lower-casing goes code point by code point through `lower`, so every result holds for any case table.
 */
module Validation {
  import opened Basics

  const MaxQuestionLen := 200
  const MaxOptionLen := 100
  const MinOptions := 2
  const MaxOptions := 6

  datatype Invalid = InvalidQuestion | InvalidOptions

  predicate IsSpace(c: char) {
    var n := c as int;
    9 <= n <= 13 || n in {0x20, 0x85, 0xA0, 0x1680, 0x2028, 0x2029, 0x202F, 0x205F, 0x3000} || 0x2000 <= n <= 0x200A
  }

  /** The code points with Unicode's White_Space property, one by one. */
  const WhiteSpace: set<char> := {
    '\t', '\n', '\U{0B}', '\U{0C}', '\r', ' ', '\U{85}', '\U{A0}', '\U{1680}',
    '\U{2000}', '\U{2001}', '\U{2002}', '\U{2003}', '\U{2004}', '\U{2005}', '\U{2006}', '\U{2007}', '\U{2008}',
    '\U{2009}', '\U{200A}', '\U{2028}', '\U{2029}', '\U{202F}', '\U{205F}', '\U{3000}'}

  lemma SpaceIsWhiteSpace(c: char)
    ensures IsSpace(c) <==> c in WhiteSpace
  {
    assert IsSpace(c) ==> (c as int) as char == c;
  }

  predicate AllSpace(s: string) {
    forall i | 0 <= i < |s| :: IsSpace(s[i])
  }

  function TrimLeft(s: string): string {
    if s != "" && IsSpace(s[0]) then TrimLeft(s[1..]) else s
  }

  function TrimRight(s: string): string {
    if s != "" && IsSpace(s[|s| - 1]) then TrimRight(s[..|s| - 1]) else s
  }

  function TrimSpace(s: string): string {
    TrimRight(TrimLeft(s))
  }

  function Width(c: char): nat {
    var n := c as int;
    if n < 0x80 then 1 else if n < 0x800 then 2 else if n < 0x1_0000 then 3 else 4
  }

  /** len(s) in Go. */
  function ByteLen(s: string): nat {
    if s == "" then 0 else ByteLen(s[..|s| - 1]) + Width(s[|s| - 1])
  }

  /** An ASCII text is as long in bytes as in code points; any other is longer, by at most three bytes a code point. */
  lemma {:induction false} ByteLenBounds(s: string)
    ensures |s| <= ByteLen(s) <= 4 * |s|
    ensures ByteLen(s) == |s| <==> forall i | 0 <= i < |s| :: s[i] as int < 0x80
  {
    if s != "" {
      var rest := s[..|s| - 1];
      ByteLenBounds(rest);
      assert forall i | 0 <= i < |rest| :: rest[i] == s[i];
    }
  }

  /** The UTF-8 form of a code point. */
  function Utf8(c: char): seq<int> {
    var n := c as int;
    if n < 0x80 then [n]
    else if n < 0x800 then [0xC0 + n / 0x40, 0x80 + n % 0x40]
    else if n < 0x1_0000 then [0xE0 + n / 0x1000, 0x80 + n / 0x40 % 0x40, 0x80 + n % 0x40]
    else [0xF0 + n / 0x4_0000, 0x80 + n / 0x1000 % 0x40, 0x80 + n / 0x40 % 0x40, 0x80 + n % 0x40]
  }

  /** The code point that a lead byte and its continuation bytes stand for. */
  function Utf8Value(bytes: seq<int>): int
    requires 1 <= |bytes| <= 4
  {
    match |bytes|
    case 1 => bytes[0]
    case 2 => (bytes[0] - 0xC0) * 0x40 + (bytes[1] - 0x80)
    case 3 => (bytes[0] - 0xE0) * 0x1000 + (bytes[1] - 0x80) * 0x40 + (bytes[2] - 0x80)
    case _ =>
      (bytes[0] - 0xF0) * 0x4_0000 + (bytes[1] - 0x80) * 0x1000 + (bytes[2] - 0x80) * 0x40 + (bytes[3] - 0x80)
  }

  /** A well-formed encoding: the lead byte announces the length, and a shorter form would not do. */
  predicate WellFormed(bytes: seq<int>) {
    && 1 <= |bytes| <= 4 && (forall k | 1 <= k < |bytes| :: 0x80 <= bytes[k] < 0xC0)
    && var n, lead := Utf8Value(bytes), bytes[0];
       match |bytes|
       case 1 => 0 <= lead < 0x80
       case 2 => 0xC0 <= lead < 0xE0 && 0x80 <= n
       case 3 => 0xE0 <= lead < 0xF0 && 0x800 <= n
       case _ => 0xF0 <= lead < 0xF8 && 0x1_0000 <= n
  }

  function Utf8Text(s: string): seq<int> {
    if s == "" then [] else Utf8Text(s[..|s| - 1]) + Utf8(s[|s| - 1])
  }

  lemma Utf8RoundTrip(c: char)
    ensures WellFormed(Utf8(c)) && Utf8Value(Utf8(c)) == c as int && Width(c) == |Utf8(c)|
  {
    var n, b := c as int, Utf8(c);
    if 0x80 <= n < 0x800 {
      assert Utf8Value(b) == n && 2 <= n / 0x40 < 0x20;
    } else if 0x800 <= n < 0x1_0000 {
      assert n / 0x40 / 0x40 == n / 0x1000 < 0x10;
      assert Utf8Value(b) == n;
    } else if 0x1_0000 <= n {
      assert n / 0x1000 / 0x40 == n / 0x4_0000 < 8 && n / 0x40 / 0x40 == n / 0x1000;
      assert Utf8Value(b) == n;
    }
  }

  /** The length of a text is that of its UTF-8 form. */
  lemma {:induction false} ByteLenIsUtf8(s: string)
    ensures ByteLen(s) == |Utf8Text(s)|
  {
    if s != "" {
      ByteLenIsUtf8(s[..|s| - 1]);
      Utf8RoundTrip(s[|s| - 1]);
    }
  }

  function ToLower(lower: char -> char, s: string): string {
    seq(|s|, i requires 0 <= i < |s| => lower(s[i]))
  }

  /** The same text but for case: as long, and the same code points once lowered. */
  predicate SameButCase(lower: char -> char, s: string, t: string) {
    |s| == |t| && forall k | 0 <= k < |s| :: lower(s[k]) == lower(t[k])
  }

  lemma LoweredAlike(lower: char -> char, s: string, t: string)
    ensures ToLower(lower, s) == ToLower(lower, t) <==> SameButCase(lower, s, t)
  {
    if ToLower(lower, s) == ToLower(lower, t) {
      assert |ToLower(lower, s)| == |ToLower(lower, t)|;
      forall k | 0 <= k < |s| ensures lower(s[k]) == lower(t[k]) {
        assert ToLower(lower, s)[k] == ToLower(lower, t)[k];
      }
    }
  }

  // ----- What trimming means -----

  /** `t` is `s` without its leading and trailing white space, and nothing else taken. */
  predicate Trims(s: string, t: string) {
    && (exists i, j | 0 <= i <= j <= |s| :: t == s[i..j] && AllSpace(s[..i]) && AllSpace(s[j..]))
    && (t != "" ==> !IsSpace(t[0]) && !IsSpace(t[|t| - 1]))
  }

  lemma {:induction false} TrimLeftCut(s: string) returns (i: nat)
    ensures i <= |s| && TrimLeft(s) == s[i..] && AllSpace(s[..i])
    ensures TrimLeft(s) != "" ==> !IsSpace(TrimLeft(s)[0])
  {
    if s != "" && IsSpace(s[0]) {
      var k := TrimLeftCut(s[1..]);
      i := k + 1;
      forall x | 0 <= x < i ensures IsSpace(s[..i][x]) {
        if x > 0 {
          assert s[x] == s[1..][..k][x - 1];
        }
      }
    } else {
      i := 0;
    }
  }

  lemma {:induction false} TrimRightCut(s: string) returns (j: nat)
    ensures j <= |s| && TrimRight(s) == s[..j] && AllSpace(s[j..])
    ensures TrimRight(s) != "" ==> !IsSpace(TrimRight(s)[j - 1])
  {
    if s != "" && IsSpace(s[|s| - 1]) {
      j := TrimRightCut(s[..|s| - 1]);
      forall x | 0 <= x < |s| - j ensures IsSpace(s[j..][x]) {
        if x < |s| - 1 - j {
          assert s[j + x] == s[..|s| - 1][j..][x];
        }
      }
      assert s[..|s| - 1][..j] == s[..j];
    } else {
      j := |s|;
      assert s[..j] == s;
    }
  }

  lemma TrimSpaceTrims(s: string)
    ensures Trims(s, TrimSpace(s))
  {
    var i := TrimLeftCut(s);
    var left := TrimLeft(s);
    var k := TrimRightCut(left);
    var j := i + k;
    assert TrimSpace(s) == s[i..j];
    assert s[j..] == left[k..];
    assert AllSpace(s[..i]) && AllSpace(s[j..]);
    if TrimSpace(s) != "" {
      assert TrimSpace(s)[0] == left[0];
    }
  }

  /** A cut that begins and ends with no white space lies inside any other cut that takes only white space. */
  lemma TrimEdges(s: string, i: nat, j: nat, m: nat, n: nat)
    requires i <= j <= |s| && m <= n <= |s| && AllSpace(s[..m]) && AllSpace(s[n..])
    requires i < j ==> !IsSpace(s[i]) && !IsSpace(s[j - 1])
    ensures i < j ==> m <= i && j <= n
  {
    assert forall x | 0 <= x < m :: s[..m][x] == s[x];
    assert forall x | n <= x < |s| :: s[n..][x - n] == s[x];
  }

  lemma TrimCut(s: string, t: string) returns (i: nat, j: nat)
    requires Trims(s, t)
    ensures i <= j <= |s| && t == s[i..j] && AllSpace(s[..i]) && AllSpace(s[j..])
    ensures i < j ==> !IsSpace(s[i]) && !IsSpace(s[j - 1])
  {
    i, j :| 0 <= i <= j <= |s| && t == s[i..j] && AllSpace(s[..i]) && AllSpace(s[j..]);
    if i < j {
      assert t[0] == s[i] && t[|t| - 1] == s[j - 1];
    }
  }

  /** There is only one way to trim a text. */
  lemma TrimsOnce(s: string, t: string, u: string)
    requires Trims(s, t) && Trims(s, u)
    ensures t == u
  {
    var i, j := TrimCut(s, t);
    var m, n := TrimCut(s, u);
    TrimEdges(s, i, j, m, n);
    TrimEdges(s, m, n, i, j);
  }

  lemma TrimmedIsFixed(t: string)
    requires t != "" ==> !IsSpace(t[0]) && !IsSpace(t[|t| - 1])
    ensures TrimSpace(t) == t
  {
  }

  // ----- Options -----

  function Cleaned(options: seq<string>): (cleaned: seq<string>)
    ensures |cleaned| == |options|
  {
    seq(|options|, i requires 0 <= i < |options| => TrimSpace(options[i]))
  }

  /** Not empty, and at most 100 bytes long. */
  predicate Usable(text: string) {
    text != "" && |Utf8Text(text)| <= 100
  }

  /** Two to six options, each usable once trimmed, no two the same but for case. */
  predicate Acceptable(lower: char -> char, options: seq<string>) {
    var cleaned := Cleaned(options);
    && 2 <= |options| <= 6
    && (forall i | 0 <= i < |cleaned| :: Usable(cleaned[i]))
    && (forall i, j | 0 <= i < j < |cleaned| :: !SameButCase(lower, cleaned[i], cleaned[j]))
  }

  function Keys(lower: char -> char, texts: seq<string>): set<string> {
    set i | 0 <= i < |texts| :: ToLower(lower, texts[i])
  }

  lemma SeenGrows(lower: char -> char, texts: seq<string>, text: string)
    ensures Keys(lower, texts + [text]) == Keys(lower, texts) + {ToLower(lower, text)}
  {
    var more := texts + [text];
    assert forall i | 0 <= i < |texts| :: more[i] == texts[i];
    assert more[|texts|] == text;
    forall k | k in Keys(lower, texts) ensures k in Keys(lower, more) {
      var i :| 0 <= i < |texts| && ToLower(lower, texts[i]) == k;
      assert ToLower(lower, more[i]) == k;
    }
  }

  /** Comparing lowered texts decides it. */
  lemma AcceptableByKeys(lower: char -> char, options: seq<string>)
    ensures var cleaned := Cleaned(options);
      && (Acceptable(lower, options) <==>
            && 2 <= |options| <= 6 && (forall i | 0 <= i < |cleaned| :: Usable(cleaned[i]))
            && (forall i, j | 0 <= i < j < |cleaned| :: ToLower(lower, cleaned[i]) != ToLower(lower, cleaned[j])))
      && (forall i | 0 <= i < |options| :: Trims(options[i], cleaned[i]))
  {
    var cleaned := Cleaned(options);
    forall i, j | 0 <= i < j < |cleaned|
      ensures ToLower(lower, cleaned[i]) == ToLower(lower, cleaned[j]) <==> SameButCase(lower, cleaned[i], cleaned[j])
    {
      LoweredAlike(lower, cleaned[i], cleaned[j]);
    }
    forall i | 0 <= i < |options| ensures Trims(options[i], cleaned[i]) {
      TrimSpaceTrims(options[i]);
    }
  }

  /** Accepts exactly the acceptable lists and returns them trimmed, in order. */
  method ValidateOptions(lower: char -> char, options: seq<string>) returns (r: Result<seq<string>, Invalid>)
    ensures r.Ok? <==> Acceptable(lower, options)
    ensures r.Ok? ==> r.value == Cleaned(options)
    ensures r.Ok? ==> |r.value| == |options| && forall i | 0 <= i < |options| :: Trims(options[i], r.value[i])
    ensures r.Err? ==> r.error == InvalidOptions
  {
    if |options| < MinOptions || |options| > MaxOptions {
      return Err(InvalidOptions);
    }
    var cleaned: seq<string> := [];
    var seen: set<string> := {};
    for n := 0 to |options|
      invariant cleaned == Cleaned(options)[..n]
      invariant forall i | 0 <= i < n :: Usable(cleaned[i])
      invariant forall i, j | 0 <= i < j < n :: ToLower(lower, cleaned[i]) != ToLower(lower, cleaned[j])
      invariant seen == Keys(lower, cleaned)
    {
      var opt := TrimSpace(options[n]);
      assert Cleaned(options)[n] == opt;
      ByteLenIsUtf8(opt);
      if opt == "" || ByteLen(opt) > MaxOptionLen {
        return Err(InvalidOptions);
      }
      var key := ToLower(lower, opt);
      if key in seen {
        ghost var i :| 0 <= i < n && ToLower(lower, cleaned[i]) == key;
        LoweredAlike(lower, Cleaned(options)[i], Cleaned(options)[n]);
        assert SameButCase(lower, Cleaned(options)[i], Cleaned(options)[n]);
        return Err(InvalidOptions);
      }
      ghost var before := cleaned;
      seen := seen + {key};
      cleaned := cleaned + [opt];
      SeenGrows(lower, before, opt);
    }
    assert cleaned == Cleaned(options);
    AcceptableByKeys(lower, options);
    return Ok(cleaned);
  }

  /** Validation accepts its own output and leaves it unchanged. */
  lemma AcceptsOwnOutput(lower: char -> char, options: seq<string>)
    requires Acceptable(lower, options)
    ensures Cleaned(Cleaned(options)) == Cleaned(options) && Acceptable(lower, Cleaned(options))
  {
    var cleaned := Cleaned(options);
    forall i | 0 <= i < |options| ensures TrimSpace(cleaned[i]) == cleaned[i] {
      TrimSpaceTrims(options[i]);
      TrimmedIsFixed(cleaned[i]);
    }
    assert Cleaned(cleaned) == cleaned;
  }

  function ValidateQuestion(question: string): Result<string, Invalid> {
    var q := TrimSpace(question);
    if q == "" || ByteLen(q) > MaxQuestionLen then Err(InvalidQuestion) else Ok(q)
  }

  lemma ValidQuestionIsTrimmed(question: string)
    ensures var r := ValidateQuestion(question);
      && (r.Ok? <==> !AllSpace(question) && |Utf8Text(TrimSpace(question))| <= 200)
      && (r.Ok? ==> Trims(question, r.value) && ValidateQuestion(r.value) == r)
      && (r.Err? ==> r.error == InvalidQuestion)
  {
    var q := TrimSpace(question);
    TrimSpaceTrims(question);
    TrimmedIsFixed(q);
    ByteLenIsUtf8(q);
    if q != "" {
      var i, j :| 0 <= i <= j <= |question| && q == question[i..j]
        && AllSpace(question[..i]) && AllSpace(question[j..]);
      assert q[0] == question[i];
    }
  }
}
