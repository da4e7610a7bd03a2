/**
 * The three text helpers the activity report borrows from the bot's
 * StringUtils: left padding, centring and ckey normalisation.
 *
 * The helpers' own source is not part of this model. Their bodies here follow
 * the usual convention (pad on the left; centring puts the smaller half of the
 * padding on the left; a ckey keeps only lower-cased ASCII letters and
 * digits). The report's proofs rely only on the facts stated in the contracts:
 * the padded length is max(width, |s|), the text sits at a known offset, and
 * the padding is made of the pad character.
 */
module StringUtils {

  function Max(a: int, b: int): (m: int)
    ensures m >= a && m >= b && (m == a || m == b)
  {
    if a >= b then a else b
  }

  /** n copies of c. */
  function Repeat(c: char, n: nat): (r: string)
    ensures |r| == n
    ensures forall i :: 0 <= i < n ==> r[i] == c
  {
    if n == 0 then [] else [c] + Repeat(c, n - 1)
  }

  /** StringUtils.padStart: s right-aligned in a field of `width` characters. */
  function PadStart(s: string, width: int, pad: char): (r: string)
    ensures |r| == Max(width, |s|)
    ensures r[|r| - |s|..] == s
    ensures forall i :: 0 <= i < |r| - |s| ==> r[i] == pad
  {
    if |s| >= width then s else Repeat(pad, width - |s|) + s
  }

  /** StringUtils.center: s in the middle of a field of `width` spaces. */
  function Center(s: string, width: int): (r: string)
    ensures |r| == Max(width, |s|)
    ensures r[(|r| - |s|) / 2 .. (|r| - |s|) / 2 + |s|] == s
    ensures forall i :: 0 <= i < (|r| - |s|) / 2 ==> r[i] == ' '
    ensures forall i :: (|r| - |s|) / 2 + |s| <= i < |r| ==> r[i] == ' '
  {
    if |s| >= width then s
    else
      var pads := width - |s|;
      var r := Repeat(' ', pads / 2) + s + Repeat(' ', pads - pads / 2);
      assert r[pads / 2 .. pads / 2 + |s|] == s;
      r
  }

  /** The characters a canonical ckey is made of. */
  predicate IsCkeyChar(c: char) {
    'a' <= c <= 'z' || '0' <= c <= '9'
  }

  predicate IsCkey(s: string) {
    forall i :: 0 <= i < |s| ==> IsCkeyChar(s[i])
  }

  /** ASCII lower-casing of one character. */
  function Lower(c: char): (d: char)
    ensures 'A' <= c <= 'Z' ==> 'a' <= d <= 'z'
    ensures !('A' <= c <= 'Z') ==> d == c
  {
    if 'A' <= c <= 'Z' then (c as int + 32) as char else c
  }

  /** StringUtils.ckeyIze: lower-cases and drops everything but letters and digits. */
  function CkeyIze(s: string): (r: string)
    ensures IsCkey(r)
    ensures |r| <= |s|
  {
    if s == [] then []
    else
      var c := Lower(s[0]);
      (if IsCkeyChar(c) then [c] else []) + CkeyIze(s[1..])
  }

  /** A ckey is left unchanged by CkeyIze. */
  lemma {:induction false} CkeyIzeKeepsCkey(s: string)
    requires IsCkey(s)
    ensures CkeyIze(s) == s
  {
    if s != [] {
      CkeyIzeKeepsCkey(s[1..]);
    }
  }

  /** CkeyIze is idempotent. */
  lemma CkeyIzeIdempotent(s: string)
    ensures CkeyIze(CkeyIze(s)) == CkeyIze(s)
  {
    CkeyIzeKeepsCkey(CkeyIze(s));
  }

  /** A name is its own CkeyIze exactly when it is already a ckey. */
  lemma {:induction false} CkeyIzeFixedIff(s: string)
    ensures CkeyIze(s) == s <==> IsCkey(s)
  {
    if IsCkey(s) {
      CkeyIzeKeepsCkey(s);
    }
  }
}
