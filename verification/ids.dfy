/**
 * Identifiers, the string order the code relies on, and the character
 * classes shared by the validators.
 */
module Ids {

  type UserId = string
  type ChatId = string
  type MessageId = string
  type SocketId = string

  /** An abstract clock value (`new Date()` and the database's `now()`). */
  type Time = nat

  /**
   * Lexicographic order on strings, character by character: JavaScript's `<`
   * on strings (for the ASCII uuids used as ids) and PostgreSQL's order on
   * canonical lower-case uuids.
   */
  predicate LexLess(a: string, b: string)
  {
    if a == [] then b != []
    else if b == [] then false
    else if a[0] == b[0] then LexLess(a[1..], b[1..])
    else a[0] < b[0]
  }

  lemma {:induction false} LexLessIrreflexive(a: string)
    ensures !LexLess(a, a)
  {
    if a != [] {
      LexLessIrreflexive(a[1..]);
    }
  }

  lemma {:induction false} LexLessAsymmetric(a: string, b: string)
    ensures !(LexLess(a, b) && LexLess(b, a))
  {
    if a != [] && b != [] && a[0] == b[0] {
      LexLessAsymmetric(a[1..], b[1..]);
    }
  }

  lemma {:induction false} LexLessTransitive(a: string, b: string, c: string)
    requires LexLess(a, b) && LexLess(b, c)
    ensures LexLess(a, c)
  {
    if a != [] && b != [] && c != [] && a[0] == b[0] && b[0] == c[0] {
      LexLessTransitive(a[1..], b[1..], c[1..]);
    }
  }

  lemma {:induction false} LexLessTotal(a: string, b: string)
    ensures a == b || LexLess(a, b) || LexLess(b, a)
  {
    if a != [] && b != [] && a[0] == b[0] {
      LexLessTotal(a[1..], b[1..]);
      if a[1..] == b[1..] {
        assert a == [a[0]] + a[1..] && b == [b[0]] + b[1..];
      }
    }
  }

  predicate IsAsciiDigit(c: char) { '0' <= c <= '9' }
  predicate IsAsciiLower(c: char) { 'a' <= c <= 'z' }
  predicate IsAsciiUpper(c: char) { 'A' <= c <= 'Z' }
  predicate IsHexDigit(c: char) { IsAsciiDigit(c) || 'a' <= c <= 'f' || 'A' <= c <= 'F' }

  /** The four line terminators of ECMAScript, which `.` in a regular expression does not match. */
  predicate IsLineTerminator(c: char)
  {
    c == '\n' || c == '\r' || c == '\U{2028}' || c == '\U{2029}'
  }

  /** Upper- to lower-case for the ASCII letters; every other character is kept. */
  function AsciiLower(c: char): char
  {
    if IsAsciiUpper(c) then (c as int + 32) as char else c
  }

  function AsciiLowerString(s: string): (r: string)
    ensures |r| == |s|
    ensures forall i :: 0 <= i < |s| ==> r[i] == AsciiLower(s[i])
  {
    if s == [] then [] else [AsciiLower(s[0])] + AsciiLowerString(s[1..])
  }

  /** `q` occurs in `s` as a contiguous substring. */
  predicate Contains(s: string, q: string)
  {
    q <= s || (s != [] && Contains(s[1..], q))
  }

  /** SQL `s ILIKE '%' || q || '%'`, with `q` taken as a literal and ASCII case folding. */
  predicate ContainsIgnoringCase(s: string, q: string)
  {
    Contains(AsciiLowerString(s), AsciiLowerString(q))
  }

  /**
   * The UUID version 4 shape that class-validator's `IsUUID(4)` and NestJS's
   * `ParseUUIDPipe({ version: '4' })` accept: 8-4-4-4-12 hex digits, the version
   * digit 4 and a variant digit among 8, 9, a, b (either case).
   */
  predicate IsUuidV4(s: string)
  {
    && |s| == 36
    && (forall i :: 0 <= i < 36 ==>
          if i == 8 || i == 13 || i == 18 || i == 23 then s[i] == '-' else IsHexDigit(s[i]))
    && s[14] == '4'
    && s[19] in "89abAB"
  }
}
