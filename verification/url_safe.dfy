/**
 The post-processing in `hashBytes` (src/app/core/Utils.ts): the standard
 base64 text of the document digest is rewritten into the URL- and
 filename-safe alphabet of section 5 of RFC 4648 by replacing every `+` with
 `-`, every `/` with `_`, and dropping the trailing run of `=` padding. The
 SHA-256 digest and `btoa` are not modelled; the rewrite works on any string.
 */
module UrlSafe {

  /** The character that replaces `c`. */
  function Substitute(c: char): char {
    if c == '+' then '-' else if c == '/' then '_' else c
  }

  /** `s.replace(/x/g, y)` for a single character `x`. */
  function ReplaceAll(s: string, from: char, to: char): (r: string)
    ensures |r| == |s|
    ensures forall i :: 0 <= i < |r| ==> r[i] == if s[i] == from then to else s[i]
  {
    if |s| == 0 then "" else [if s[0] == from then to else s[0]] + ReplaceAll(s[1..], from, to)
  }

  /** The number of `c` characters at the end of `s`. */
  function TrailingRun(s: string, c: char): (n: nat)
    ensures n <= |s|
  {
    if |s| > 0 && s[|s| - 1] == c then TrailingRun(s[..|s| - 1], c) + 1 else 0
  }

  /** `s.replace(/=+$/, '')` with `c` for `=`: drop the trailing run of `c`. */
  function StripTrailing(s: string, c: char): (r: string)
    ensures |r| <= |s| && r == s[..|r|]
    ensures forall i :: |r| <= i < |s| ==> s[i] == c
    ensures r == [] || r[|r| - 1] != c
  {
    if |s| > 0 && s[|s| - 1] == c then StripTrailing(s[..|s| - 1], c) else s
  }

  /** Lines 17-20. Every kept character is the substitute of the character
      at the same position, exactly the trailing `=` run is removed, and the
      result holds no `+`, no `/` and does not end in `=`. */
  function ToUrlSafe(b64: string): (r: string)
    ensures |r| == |b64| - TrailingRun(b64, '=')
    ensures forall i :: 0 <= i < |r| ==> r[i] == Substitute(b64[i])
    ensures '+' !in r && '/' !in r
    ensures r == [] || r[|r| - 1] != '='
  {
    var m := ReplaceAll(ReplaceAll(b64, '+', '-'), '/', '_');
    assert forall i :: 0 <= i < |m| ==> m[i] == Substitute(b64[i]);
    StripLength(m, '=');
    SubstituteKeepsTrailingRun(b64, m);
    StripTrailing(m, '=')
  }

  /** Stripping removes exactly the trailing run. */
  lemma {:induction false} StripLength(s: string, c: char)
    ensures |StripTrailing(s, c)| == |s| - TrailingRun(s, c)
  {
    if |s| > 0 && s[|s| - 1] == c {
      StripLength(s[..|s| - 1], c);
    }
  }

  /** Substitution never creates or destroys an `=`, so the trailing run of
      `=` has the same length before and after. */
  lemma {:induction false} SubstituteKeepsTrailingRun(s: string, m: string)
    requires |m| == |s| && forall i :: 0 <= i < |m| ==> m[i] == Substitute(s[i])
    ensures TrailingRun(m, '=') == TrailingRun(s, '=')
  {
    if |s| > 0 {
      SubstituteKeepsTrailingRun(s[..|s| - 1], m[..|m| - 1]);
    }
  }

  /** Rewriting an already rewritten string changes nothing. */
  lemma ToUrlSafeIdempotent(b64: string)
    ensures ToUrlSafe(ToUrlSafe(b64)) == ToUrlSafe(b64)
  {
    var r := ToUrlSafe(b64);
    assert TrailingRun(r, '=') == 0;
    var rr := ToUrlSafe(r);
    assert forall i :: 0 <= i < |r| ==> rr[i] == Substitute(r[i]) == r[i];
  }

  predicate IsBase64Char(c: char) {
    ('A' <= c <= 'Z') || ('a' <= c <= 'z') || ('0' <= c <= '9') || c == '+' || c == '/'
  }

  predicate IsUrlChar(c: char) {
    ('A' <= c <= 'Z') || ('a' <= c <= 'z') || ('0' <= c <= '9') || c == '-' || c == '_'
  }

  /** Standard base64 text: alphabet characters, of which the last two may
      instead be `=` padding, and padding only at the very end. */
  predicate IsPaddedBase64(s: string) {
    && (forall i :: 0 <= i < |s| ==> IsBase64Char(s[i]) || (|s| - 2 <= i && s[i] == '='))
    && (|s| >= 2 && s[|s| - 2] == '=' ==> s[|s| - 1] == '=')
  }

  /** Standard base64 text is rewritten into the URL-safe alphabet only. */
  lemma ToUrlSafeAlphabet(b64: string)
    requires IsPaddedBase64(b64)
    ensures forall i :: 0 <= i < |ToUrlSafe(b64)| ==> IsUrlChar(ToUrlSafe(b64)[i])
  {
    var k := if |b64| >= 2 && b64[|b64| - 2] == '=' then |b64| - 2
             else if |b64| >= 1 && b64[|b64| - 1] == '=' then |b64| - 1
             else |b64|;
    TrailingRunCovers(b64, k);
    var r := ToUrlSafe(b64);
    forall i | 0 <= i < |r|
      ensures IsUrlChar(r[i])
    {
      SubstituteIntoUrlAlphabet(b64[i]);
    }
  }

  /** The substitute of a base64 alphabet character is a URL-safe one. */
  lemma SubstituteIntoUrlAlphabet(c: char)
    requires IsBase64Char(c)
    ensures IsUrlChar(Substitute(c))
  {
  }

  /** A suffix made only of `=` lies inside the trailing run. */
  lemma {:induction false} TrailingRunCovers(s: string, n: nat)
    requires n <= |s| && forall i :: n <= i < |s| ==> s[i] == '='
    ensures |s| - TrailingRun(s, '=') <= n
  {
    if n < |s| {
      TrailingRunCovers(s[..|s| - 1], n);
    }
  }

  /** A SHA-256 digest is 32 bytes, which base64 writes as 43 characters and
      one `=`: the document identity is 43 characters long. */
  lemma DigestIdentityLength(b64: string)
    requires |b64| == 44 && b64[43] == '=' && forall i :: 0 <= i < 43 ==> IsBase64Char(b64[i])
    ensures |ToUrlSafe(b64)| == 43
  {
    assert b64[..43][42] != '=' by { assert IsBase64Char(b64[42]); }
  }
}
