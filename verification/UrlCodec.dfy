/**
 The escaping of URLs inside system-object descriptors, where ':' and '=' are separators:
 three whole-string replacements each way, applied one after the other.
 */
module UrlCodec {

  /** `str::replace` of a character. */
  function ReplaceChar(s: string, c: char, to: string): string {
    if s == "" then "" else (if s[0] == c then to else [s[0]]) + ReplaceChar(s[1..], c, to)
  }

  /** `str::replace` of a substring: left to right, occurrences do not overlap. */
  function Replace(s: string, pat: string, to: string): string
    requires |pat| > 0
  {
    if s == "" then ""
    else if pat <= s then to + Replace(s[|pat|..], pat, to)
    else [s[0]] + Replace(s[1..], pat, to)
  }

  function Encode(url: string): string {
    var amps := ReplaceChar(url, '&', "&amp;");
    var cols := ReplaceChar(amps, ':', "&col;");
    ReplaceChar(cols, '=', "&eq;")
  }

  function Decode(encoded: string): string {
    var eqs := Replace(encoded, "&eq;", "=");
    var cols := Replace(eqs, "&col;", ":");
    Replace(cols, "&amp;", "&")
  }

  /** How far decoding has come: which of the escapes are still in the text. */
  datatype Stage = All | ColAmp | Amp | Plain

  /** The text for one original character at a stage. */
  function Token(stage: Stage, c: char): string {
    if c == '&' && stage != Plain then "&amp;"
    else if c == ':' && (stage == All || stage == ColAmp) then "&col;"
    else if c == '=' && stage == All then "&eq;"
    else [c]
  }

  function Text(stage: Stage, s: string): string {
    if s == "" then "" else Token(stage, s[0]) + Text(stage, s[1..])
  }

  /** Encoding character by character is the same as the three passes: no pass disturbs another's output. */
  lemma {:induction false} EncodeIsText(s: string)
    ensures Encode(s) == Text(All, s)
  {
    if s != "" {
      EncodeIsText(s[1..]);
      var amp := if s[0] == '&' then "&amp;" else [s[0]];
      assert ReplaceChar(s, '&', "&amp;") == amp + ReplaceChar(s[1..], '&', "&amp;");
      ReplaceCharConcat(amp, ReplaceChar(s[1..], '&', "&amp;"), ':', "&col;");
      var col := ReplaceChar(amp, ':', "&col;");
      ReplaceCharConcat(col, ReplaceChar(ReplaceChar(s[1..], '&', "&amp;"), ':', "&col;"), '=', "&eq;");
      TokenPasses(s[0]);
    }
  }

  lemma TokenPasses(c: char)
    ensures var amp := if c == '&' then "&amp;" else [c];
            ReplaceChar(ReplaceChar(amp, ':', "&col;"), '=', "&eq;") == Token(All, c)
  {
    if c == '&' {
      ReplaceCharAbsent("&amp;", ':', "&col;");
      ReplaceCharAbsent("&amp;", '=', "&eq;");
    } else if c == ':' {
      assert [c][1..] == "";
      assert ReplaceChar([c], ':', "&col;") == "&col;";
      ReplaceCharAbsent("&col;", '=', "&eq;");
    } else {
      ReplaceCharAbsent([c], ':', "&col;");
      assert [c][1..] == "";
    }
  }

  lemma {:induction false} ReplaceCharAbsent(s: string, c: char, to: string)
    requires c !in s
    ensures ReplaceChar(s, c, to) == s
  {
    if s != "" { ReplaceCharAbsent(s[1..], c, to); }
  }

  lemma ReplaceCharFirst(s: string, c: char, to: string)
    requires s != ""
    ensures ReplaceChar(s, c, to) == (if s[0] == c then to else [s[0]]) + ReplaceChar(s[1..], c, to)
    ensures ReplaceChar("", c, to) == ""
  {
  }

  lemma Assoc(a: string, b: string, c: string)
    ensures a + (b + c) == (a + b) + c
  {
  }

  lemma {:induction false} ReplaceCharConcat(a: string, b: string, c: char, to: string)
    ensures ReplaceChar(a + b, c, to) == ReplaceChar(a, c, to) + ReplaceChar(b, c, to)
  {
    if a == "" {
      assert a + b == b;
    } else {
      hide ReplaceChar;
      ReplaceCharConcat(a[1..], b, c, to);
      ReplaceCharFirst(a, c, to);
      ReplaceCharFirst(a + b, c, to);
      assert (a + b)[0] == a[0] && (a + b)[1..] == a[1..] + b;
      Assoc(if a[0] == c then to else [a[0]], ReplaceChar(a[1..], c, to), ReplaceChar(b, c, to));
    }
  }

  /** Text without an ampersand is passed over by a pattern that starts with one. */
  lemma {:induction false} SkipPlain(t: string, rest: string, pat: string, to: string)
    requires |pat| > 0 && pat[0] == '&' && '&' !in t
    ensures Replace(t + rest, pat, to) == t + Replace(rest, pat, to)
  {
    if t == "" {
      assert t + rest == rest;
    } else {
      SkipPlain(t[1..], rest, pat, to);
      assert (t + rest)[0] == t[0] && (t + rest)[1..] == t[1..] + rest;
    }
  }

  /** An escape other than the pattern is passed over too. */
  lemma SkipEscape(t: string, rest: string, pat: string, to: string)
    requires |pat| > 1 && pat[0] == '&' && |t| > 1 && t[0] == '&' && pat[1] != t[1] && '&' !in t[1..]
    ensures Replace(t + rest, pat, to) == t + Replace(rest, pat, to)
  {
    assert (t + rest)[1] == t[1] && (t + rest)[0] == '&';
    assert !(pat <= t + rest);
    assert (t + rest)[1..] == t[1..] + rest;
    SkipPlain(t[1..], rest, pat, to);
    assert [t[0]] + t[1..] == t;
  }

  lemma HitEscape(rest: string, pat: string, to: string)
    requires |pat| > 0
    ensures Replace(pat + rest, pat, to) == to + Replace(rest, pat, to)
  {
    assert (pat + rest)[|pat|..] == rest;
    assert pat <= pat + rest;
    assert pat + rest != "";
  }

  lemma {:induction false} DecodeEq(s: string)
    ensures Replace(Text(All, s), "&eq;", "=") == Text(ColAmp, s)
  {
    if s != "" {
      DecodeEq(s[1..]);
      var t, rest := Token(All, s[0]), Text(All, s[1..]);
      if s[0] == '=' { HitEscape(rest, "&eq;", "="); }
      else if s[0] == '&' || s[0] == ':' { SkipEscape(t, rest, "&eq;", "="); }
      else { SkipPlain(t, rest, "&eq;", "="); }
    }
  }

  lemma {:induction false} DecodeCol(s: string)
    ensures Replace(Text(ColAmp, s), "&col;", ":") == Text(Amp, s)
  {
    if s != "" {
      DecodeCol(s[1..]);
      var t, rest := Token(ColAmp, s[0]), Text(ColAmp, s[1..]);
      if s[0] == ':' { HitEscape(rest, "&col;", ":"); }
      else if s[0] == '&' { SkipEscape(t, rest, "&col;", ":"); }
      else { SkipPlain(t, rest, "&col;", ":"); }
    }
  }

  lemma {:induction false} DecodeAmp(s: string)
    ensures Replace(Text(Amp, s), "&amp;", "&") == s
  {
    if s != "" {
      DecodeAmp(s[1..]);
      var t, rest := Token(Amp, s[0]), Text(Amp, s[1..]);
      if s[0] == '&' { HitEscape(rest, "&amp;", "&"); } else { SkipPlain(t, rest, "&amp;", "&"); }
      assert [s[0]] + s[1..] == s;
    }
  }

  /** Decoding undoes encoding, for every string, also one that contains escapes of its own. */
  lemma RoundTrip(s: string)
    ensures Decode(Encode(s)) == s
  {
    EncodeIsText(s);
    DecodeEq(s);
    DecodeCol(s);
    DecodeAmp(s);
  }

  lemma {:induction false} TextHasNoSeparators(s: string)
    ensures ':' !in Text(All, s) && '=' !in Text(All, s)
  {
    if s != "" { TextHasNoSeparators(s[1..]); }
  }

  /** The encoded form contains neither separator, and different URLs have different encodings. */
  lemma EncodedIsSafe(s: string, other: string)
    ensures ':' !in Encode(s) && '=' !in Encode(s)
    ensures Encode(s) == Encode(other) ==> s == other
  {
    EncodeIsText(s);
    TextHasNoSeparators(s);
    RoundTrip(s);
    RoundTrip(other);
  }
}
