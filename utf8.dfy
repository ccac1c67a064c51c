/**
 * Well-formed UTF-8 byte strings (RFC 3629, as Python's strict "utf-8"
 * codec checks them: no overlong forms, no surrogates, nothing above
 * U+10FFFF). A Python `str` is modelled by its UTF-8 encoding, so
 * `.encode()` is the identity on `Str` and `.decode()` is the check
 * `IsUtf8`.
 */
module Utf8 {

  type byte = x: int | 0 <= x < 256

  predicate IsAscii(b: byte) { b < 0x80 }

  predicate IsCont(b: byte) { 0x80 <= b <= 0xBF }

  /** Length of the well-formed character that starts `s`, or 0 if none does. */
  function CharLength(s: seq<byte>): (n: nat)
    requires |s| > 0
    ensures n <= 4 && n <= |s|
    ensures n == 1 <==> IsAscii(s[0])
  {
    var b0 := s[0];
    if b0 < 0x80 then 1
    else if 0xC2 <= b0 <= 0xDF then
      (if |s| >= 2 && IsCont(s[1]) then 2 else 0)
    else if 0xE0 <= b0 <= 0xEF then
      var lo := if b0 == 0xE0 then 0xA0 else 0x80;
      var hi := if b0 == 0xED then 0x9F else 0xBF;
      (if |s| >= 3 && lo <= s[1] <= hi && IsCont(s[2]) then 3 else 0)
    else if 0xF0 <= b0 <= 0xF4 then
      var lo := if b0 == 0xF0 then 0x90 else 0x80;
      var hi := if b0 == 0xF4 then 0x8F else 0xBF;
      (if |s| >= 4 && lo <= s[1] <= hi && IsCont(s[2]) && IsCont(s[3]) then 4 else 0)
    else 0
  }

  /** `s` decodes without UnicodeDecodeError. */
  predicate IsUtf8(s: seq<byte>)
    decreases |s|
  {
    |s| == 0 || (CharLength(s) > 0 && IsUtf8(s[CharLength(s)..]))
  }

  /** A Python string, held as its UTF-8 encoding. */
  type Str = s: seq<byte> | IsUtf8(s) witness []

  /** The bytes after the first of a multi-byte character are not ASCII. */
  lemma InsideCharNotAscii(s: seq<byte>, k: nat)
    requires |s| > 0 && 1 <= k < CharLength(s)
    ensures !IsAscii(s[k])
  {
  }

  /** A character's length depends only on its own bytes. */
  lemma CharLengthOfPrefix(s: seq<byte>, t: seq<byte>)
    requires |s| > 0 && CharLength(s) > 0
    requires CharLength(s) <= |t| && t[..CharLength(s)] == s[..CharLength(s)]
    ensures CharLength(t) == CharLength(s)
  {
    assert t[0] == s[0];
    if CharLength(s) >= 2 { assert t[1] == s[1]; }
    if CharLength(s) >= 3 { assert t[2] == s[2]; }
    if CharLength(s) >= 4 { assert t[3] == s[3]; }
  }

  lemma AsciiIsUtf8(b: byte)
    requires IsAscii(b)
    ensures IsUtf8([b])
  {
    assert [b][1..] == [];
  }

  /** Concatenating two strings gives a string. */
  lemma {:induction false} Concat(a: seq<byte>, b: seq<byte>)
    requires IsUtf8(a) && IsUtf8(b)
    ensures IsUtf8(a + b)
    decreases |a|
  {
    if |a| == 0 {
      assert a + b == b;
    } else {
      FoldOne(a);
      Concat(a[CharLength(a)..], b);
      ConcatStep(a, b);
    }
  }

  lemma ConcatStep(a: seq<byte>, b: seq<byte>)
    requires |a| > 0 && CharLength(a) > 0 && IsUtf8(a[CharLength(a)..] + b)
    ensures IsUtf8(a + b)
  {
    var n := CharLength(a);
    assert (a + b)[..n] == a[..n];
    CharLengthOfPrefix(a, a + b);
    assert (a + b)[n..] == a[n..] + b;
    UnfoldOne(a + b);
  }

  /**
   * An ASCII byte of a well-formed string is a whole character, so cutting
   * the string around it leaves two well-formed strings.
   */
  lemma {:induction false} SplitAtAscii(s: seq<byte>, i: nat)
    requires IsUtf8(s) && i < |s| && IsAscii(s[i])
    ensures IsUtf8(s[..i]) && IsUtf8(s[i + 1..])
    decreases i
  {
    FoldOne(s);
    var n := CharLength(s);
    if i == 0 {
      assert s[..0] == [];
      assert s[1..] == s[n..];
    } else {
      // s[i] is ASCII, so it is not inside the first character
      if i < n {
        InsideCharNotAscii(s, i);
      }
      var rest := s[n..];
      assert rest[i - n] == s[i];
      SplitAtAscii(rest, i - n);
      assert rest[i - n + 1..] == s[i + 1..];
      PrefixStep(s, i);
    }
  }

  lemma PrefixStep(s: seq<byte>, i: nat)
    requires |s| > 0 && 0 < CharLength(s) <= i <= |s| && IsUtf8(s[CharLength(s)..][..i - CharLength(s)])
    ensures IsUtf8(s[..i])
  {
    var n := CharLength(s);
    var pre := s[..i];
    assert pre[..n] == s[..n];
    CharLengthOfPrefix(s, pre);
    assert pre[n..] == s[n..][..i - n];
    UnfoldOne(pre);
  }

  /** One step of the definition of IsUtf8, for a non-empty string. */
  lemma UnfoldOne(s: seq<byte>)
    requires |s| > 0 && CharLength(s) > 0 && IsUtf8(s[CharLength(s)..])
    ensures IsUtf8(s)
  {
  }

  /** The converse step: a non-empty string starts with a whole character. */
  lemma FoldOne(s: seq<byte>)
    requires |s| > 0 && IsUtf8(s)
    ensures CharLength(s) > 0 && IsUtf8(s[CharLength(s)..])
  {
  }

  /** A prefix of a string that ends just before an ASCII byte is a string. */
  lemma PrefixBeforeAscii(s: seq<byte>, i: nat)
    requires i <= |s| && (i < |s| ==> IsAscii(s[i]))
    ensures IsUtf8(s) ==> IsUtf8(s[..i])
  {
    if IsUtf8(s) {
      if i < |s| { SplitAtAscii(s, i); } else { assert s[..i] == s; }
    }
  }
}
