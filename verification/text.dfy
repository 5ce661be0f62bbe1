/**
 Small string helpers with the semantics of the JavaScript built-ins the reader
 relies on: `String.prototype.trim`, `String.prototype.split` with a one-character
 separator, `String.prototype.endsWith`, and the anchored regular expression
 `/^([0-9]+)$/`.
 */
module Text {

  /** The characters JavaScript's `trim` removes: WhiteSpace and LineTerminator
      of ECMA-262 (tab, vertical tab, form feed, space, no-break space, byte
      order mark, the Unicode space separators, LF, CR, LS and PS). */
  const WhitespaceChars: set<char> :=
    { '\t', '\n', '\U{000B}', '\U{000C}', '\r', ' ', '\U{00A0}', '\U{1680}',
      '\U{2000}', '\U{2001}', '\U{2002}', '\U{2003}', '\U{2004}', '\U{2005}',
      '\U{2006}', '\U{2007}', '\U{2008}', '\U{2009}', '\U{200A}',
      '\U{2028}', '\U{2029}', '\U{202F}', '\U{205F}', '\U{3000}', '\U{FEFF}' }

  predicate IsWhitespace(c: char) {
    c in WhitespaceChars
  }

  ghost predicate AllWhitespace(s: string) {
    forall i :: 0 <= i < |s| ==> IsWhitespace(s[i])
  }

  /** Drops the leading whitespace run; the result is the suffix that follows it. */
  function TrimStart(s: string): (r: string)
    ensures |r| <= |s| && r == s[|s| - |r|..]
    ensures AllWhitespace(s[..|s| - |r|])
    ensures r == [] || !IsWhitespace(r[0])
  {
    if |s| > 0 && IsWhitespace(s[0]) then TrimStart(s[1..]) else s
  }

  /** Drops the trailing whitespace run; the result is the prefix before it. */
  function TrimEnd(s: string): (r: string)
    ensures |r| <= |s| && r == s[..|r|]
    ensures AllWhitespace(s[|r|..])
    ensures r == [] || !IsWhitespace(r[|r| - 1])
  {
    if |s| > 0 && IsWhitespace(s[|s| - 1]) then
      var r := TrimEnd(s[..|s| - 1]);
      assert s[|r|..] == s[..|s| - 1][|r|..] + [s[|s| - 1]];
      r
    else s
  }

  /** JavaScript `s.trim()`: no longer than `s`, and it neither starts nor
      ends with whitespace; a string of whitespace only trims to "". */
  function Trim(s: string): (r: string)
    ensures |r| <= |s|
    ensures r == [] || (!IsWhitespace(r[0]) && !IsWhitespace(r[|r| - 1]))
    ensures AllWhitespace(s) ==> r == []
  {
    var a := TrimStart(s);
    var t := TrimEnd(a);
    assert t == [] || (t[0] == a[0] && !IsWhitespace(t[|t| - 1]));
    assert AllWhitespace(s) ==> a == [] by {
      if AllWhitespace(s) {
        TrimStartAllWhitespace(s);
      }
    }
    t
  }

  lemma {:induction false} TrimStartAllWhitespace(s: string)
    requires AllWhitespace(s)
    ensures TrimStart(s) == []
  {
    if |s| > 0 {
      assert IsWhitespace(s[0]);
      assert forall i :: 0 <= i < |s| - 1 ==> s[1..][i] == s[i + 1];
      TrimStartAllWhitespace(s[1..]);
    }
  }

  /** `s.trim()` is the slice of `s` left after removing a whitespace run at
      each end, and it neither starts nor ends with whitespace. */
  lemma TrimIsInnerSlice(s: string) returns (i: nat, j: nat)
    ensures i <= j <= |s| && Trim(s) == s[i..j]
    ensures AllWhitespace(s[..i]) && AllWhitespace(s[j..])
    ensures Trim(s) == [] || (!IsWhitespace(Trim(s)[0]) && !IsWhitespace(Trim(s)[|Trim(s)| - 1]))
  {
    var a := TrimStart(s);
    var b := TrimEnd(a);
    i, j := |s| - |a|, |s| - |a| + |b|;
    assert Trim(s) == b;
    assert s[i..j] == s[i..][..|b|];
    assert s[j..] == s[i..][|b|..];
  }

  /** `s.trim() === ""` exactly when every character of `s` is whitespace. */
  lemma TrimEmptyIffAllWhitespace(s: string)
    ensures Trim(s) == [] <==> AllWhitespace(s)
  {
    var i, j := TrimIsInnerSlice(s);
    if Trim(s) == [] {
      assert forall k :: 0 <= k < |s| ==> s[k] == if k < i then s[..i][k] else s[j..][k - j];
    }
  }

  /** A string that starts with a non-whitespace character is not blank. */
  lemma NotBlank(s: string)
    requires |s| > 0 && !IsWhitespace(s[0])
    ensures Trim(s) != ""
  {
    TrimEmptyIffAllWhitespace(s);
  }

  /** The test `/^([0-9]+)$/.test(s)`: one or more ASCII digits and nothing
      else. A string that passes is its own trim. */
  function IsDigits(s: string): (b: bool)
    ensures b ==> |s| > 0 && Trim(s) == s
  {
    var b := |s| > 0 && forall i :: 0 <= i < |s| ==> IsDigit(s[i]);
    if b then DigitsAreTrimmed(s); b else b
  }

  predicate IsDigit(c: char) {
    '0' <= c <= '9'
  }

  /** No ASCII digit is whitespace, so trimming leaves a digit string alone. */
  lemma DigitsAreTrimmed(s: string)
    requires |s| > 0 && forall i :: 0 <= i < |s| ==> IsDigit(s[i])
    ensures Trim(s) == s
  {
    assert !IsWhitespace(s[0]) && !IsWhitespace(s[|s| - 1]);
  }

  function Count(s: string, c: char): (n: nat)
    ensures n <= |s|
  {
    if |s| == 0 then 0 else (if s[0] == c then 1 else 0) + Count(s[1..], c)
  }

  /** JavaScript `s.split(sep)` for a one-character separator: the maximal
      separator-free pieces, always at least one (`"".split(" ")` is `[""]`). */
  function Split(s: string, sep: char): (r: seq<string>)
    ensures |r| == Count(s, sep) + 1
    ensures forall k :: 0 <= k < |r| ==> sep !in r[k]
  {
    if |s| == 0 then [""]
    else
      var rest := Split(s[1..], sep);
      if s[0] == sep then [""] + rest
      else [[s[0]] + rest[0]] + rest[1..]
  }

  /** `pieces.join(sep)`, the inverse of `Split`. */
  function Join(pieces: seq<string>, sep: char): string
    requires |pieces| > 0
  {
    if |pieces| == 1 then pieces[0] else pieces[0] + [sep] + Join(pieces[1..], sep)
  }

  lemma {:induction false} JoinSplit(s: string, sep: char)
    ensures Join(Split(s, sep), sep) == s
  {
    if |s| > 0 {
      var rest := Split(s[1..], sep);
      JoinSplit(s[1..], sep);
      if s[0] != sep {
        var r := Split(s, sep);
        assert r[0] == [s[0]] + rest[0] && r[1..] == rest[1..];
        if |rest| > 1 {
          assert Join(rest, sep) == rest[0] + [sep] + Join(rest[1..], sep);
        }
      }
    }
  }

  /** JavaScript `s.endsWith(suffix)`, comparing from the last character backwards. */
  predicate EndsWith(s: string, suffix: string) {
    if |suffix| == 0 then true
    else if |s| == 0 then false
    else s[|s| - 1] == suffix[|suffix| - 1] && EndsWith(s[..|s| - 1], suffix[..|suffix| - 1])
  }

  /** `endsWith` holds exactly when `suffix` is a suffix of `s`. */
  lemma {:induction false} EndsWithIffSuffix(s: string, suffix: string)
    ensures EndsWith(s, suffix) <==> (|suffix| <= |s| && s[|s| - |suffix|..] == suffix)
  {
    if |suffix| > 0 && |s| > 0 {
      var s', x' := s[..|s| - 1], suffix[..|suffix| - 1];
      EndsWithIffSuffix(s', x');
      if |suffix| <= |s| && s[|s| - |suffix|..] == suffix {
        assert s'[|s'| - |x'|..] == s[|s| - |suffix|..][..|x'|];
      }
      if EndsWith(s, suffix) {
        assert s[|s| - |suffix|..] == s'[|s'| - |x'|..] + [s[|s| - 1]];
        assert suffix == x' + [suffix[|suffix| - 1]];
      }
    }
  }
}
