/**
 * String operations the client relies on, as Python 2 performs them on byte strings:
 * ASCII-only case folding, substring search, `split`/`join`, `strip`, `str(n)` for a
 * natural number, `encode('ascii', 'ignore')` and `encode('utf-8')`.
 */
module Text {
  import opened Wrappers

  predicate IsUpper(c: char) { 'A' <= c <= 'Z' }

  /** Characters matched by `\w` in a byte-string regex: `[A-Za-z0-9_]`. */
  predicate IsWordChar(c: char)
  {
    'a' <= c <= 'z' || 'A' <= c <= 'Z' || '0' <= c <= '9' || c == '_'
  }

  /** The whitespace `str.strip()` removes from a byte string. */
  predicate IsSpace(c: char)
  {
    c == ' ' || c == '\t' || c == '\n' || c == '\r' || c as int == 0x0B || c as int == 0x0C
  }

  predicate IsAscii(s: string)
  {
    forall i :: 0 <= i < |s| ==> s[i] as int < 0x80
  }

  /** Every character stands for one byte. */
  predicate IsByteString(s: string)
  {
    forall i :: 0 <= i < |s| ==> s[i] as int < 0x100
  }

  function LowerChar(c: char): char
  {
    if IsUpper(c) then (c as int + 32) as char else c
  }

  /** ASCII lower-casing, character by character. */
  function Lower(s: string): (r: string)
    ensures |r| == |s|
    ensures forall i :: 0 <= i < |s| ==> r[i] == LowerChar(s[i])
  {
    if s == [] then [] else [LowerChar(s[0])] + Lower(s[1..])
  }

  lemma LowerSlice(s: string, i: nat, j: nat)
    requires i <= j <= |s|
    ensures Lower(s[i..j]) == Lower(s)[i..j]
  {
  }

  lemma LowerConcat(a: string, b: string)
    ensures Lower(a + b) == Lower(a) + Lower(b)
  {
  }

  // ---------------------------------------------------------------- substrings

  /** `sub` occurs in `s` at position `i`. */
  predicate OccursAt(s: string, sub: string, i: nat)
  {
    i + |sub| <= |s| && s[i..i + |sub|] == sub
  }

  /** Python's `sub in s`. */
  predicate Contains(s: string, sub: string)
  {
    exists i: nat :: i <= |s| && OccursAt(s, sub, i)
  }

  /** The first position at or after `k` where `sub` occurs. */
  function IndexFrom(s: string, sub: string, k: nat): (r: Option<nat>)
    requires k <= |s|
    ensures r.Some? ==> k <= r.value && OccursAt(s, sub, r.value)
    ensures r.Some? ==> forall j :: k <= j < r.value ==> !OccursAt(s, sub, j)
    ensures r.None? ==> forall j: nat :: k <= j ==> !OccursAt(s, sub, j)
    decreases |s| - k
  {
    if OccursAt(s, sub, k) then Some(k)
    else if k == |s| then None
    else IndexFrom(s, sub, k + 1)
  }

  /** Python's `s.find(sub)`, with `None` for `-1`. */
  function IndexOf(s: string, sub: string): (r: Option<nat>)
    ensures r.Some? <==> Contains(s, sub)
    ensures r.Some? ==> OccursAt(s, sub, r.value) && forall j :: 0 <= j < r.value ==> !OccursAt(s, sub, j)
  {
    IndexFrom(s, sub, 0)
  }

  lemma OccursInSlice(s: string, sub: string, lo: nat, hi: nat, i: nat)
    requires lo <= hi <= |s|
    ensures OccursAt(s[lo..hi], sub, i) ==> OccursAt(s, sub, lo + i)
  {
    if OccursAt(s[lo..hi], sub, i) {
      var t := s[lo..hi];
      assert forall k :: 0 <= k < |sub| ==> s[lo + i + k] == t[i + k] == sub[k];
      assert s[lo + i..lo + i + |sub|] == sub;
    }
  }

  lemma OccursAtConcat(a: string, b: string, sub: string, i: nat)
    ensures OccursAt(b, sub, i) ==> OccursAt(a + b, sub, |a| + i)
    ensures OccursAt(a, sub, i) ==> OccursAt(a + b, sub, i)
  {
    if OccursAt(b, sub, i) {
      assert (a + b)[|a| + i..|a| + i + |sub|] == b[i..i + |sub|];
    }
    if OccursAt(a, sub, i) {
      assert (a + b)[i..i + |sub|] == a[i..i + |sub|];
    }
  }

  // ---------------------------------------------------------------- split / join

  /** Python's `s.split(sep)`: cut at each occurrence of `sep`, scanning left to right. */
  function Split(s: string, sep: string): (r: seq<string>)
    requires sep != []
    ensures |r| >= 1
    ensures |r| == 1 <==> !Contains(s, sep)
    ensures |r| == 1 ==> r[0] == s
    decreases |s|
  {
    match IndexOf(s, sep)
    case None => [s]
    case Some(i) => [s[..i]] + Split(s[i + |sep|..], sep)
  }

  /** Python's `sep.join(pieces)`. */
  function Join(pieces: seq<string>, sep: string): string
  {
    if |pieces| == 0 then ""
    else if |pieces| == 1 then pieces[0]
    else pieces[0] + sep + Join(pieces[1..], sep)
  }

  lemma CutAround(s: string, sep: string, i: nat)
    requires OccursAt(s, sep, i)
    ensures s == s[..i] + sep + s[i + |sep|..]
  {
    assert s[i..i + |sep|] == sep;
  }

  /** What comes before the first occurrence of `sep` does not contain it. */
  lemma BeforeFirstFree(s: string, sep: string, i: nat)
    requires sep != [] && IndexOf(s, sep) == Some(i)
    ensures !Contains(s[..i], sep)
  {
    forall j: nat | OccursAt(s[..i], sep, j)
      ensures false
    {
      OccursInSlice(s, sep, 0, i, j);
    }
  }

  /** No piece of a split contains the separator. */
  lemma {:induction false} SplitPiecesFree(s: string, sep: string)
    requires sep != []
    ensures forall k :: 0 <= k < |Split(s, sep)| ==> !Contains(Split(s, sep)[k], sep)
    decreases |s|
  {
    match IndexOf(s, sep) {
      case None =>
      case Some(i) =>
        var rest := s[i + |sep|..];
        var pieces, tail := Split(s, sep), Split(rest, sep);
        SplitPiecesFree(rest, sep);
        BeforeFirstFree(s, sep, i);
        assert pieces == [s[..i]] + tail;
        forall k | 0 <= k < |pieces|
          ensures !Contains(pieces[k], sep)
        {
          if k > 0 {
            assert pieces[k] == tail[k - 1];
          }
        }
    }
  }

  /** When the first occurrence of `sep` in `a + sep + b` is the one after `a`, the split starts with `a`. */
  lemma SplitAfterFirst(a: string, sep: string, b: string)
    requires sep != []
    requires !Contains(a + sep[..|sep| - 1], sep)
    ensures Split(a + sep + b, sep) == [a] + Split(b, sep)
  {
    var s := a + sep + b;
    assert OccursAt(s, sep, |a|) by {
      assert s[|a|..|a| + |sep|] == sep;
    }
    forall j | 0 <= j < |a|
      ensures !OccursAt(s, sep, j)
    {
      if OccursAt(s, sep, j) {
        var pre := a + sep[..|sep| - 1];
        assert s[..|pre|] == pre;
        assert pre[j..j + |sep|] == s[j..j + |sep|];
        assert OccursAt(pre, sep, j);
      }
    }
    assert IndexOf(s, sep) == Some(|a|);
    assert s[..|a|] == a;
    assert s[|a| + |sep|..] == b;
  }

  lemma {:induction false} JoinSnoc(pieces: seq<string>, p: string, sep: string)
    requires pieces != []
    ensures Join(pieces + [p], sep) == Join(pieces, sep) + sep + p
    decreases |pieces|
  {
    if |pieces| == 1 {
      assert pieces + [p] == [pieces[0], p];
    } else {
      JoinSnoc(pieces[1..], p, sep);
      assert (pieces + [p])[1..] == pieces[1..] + [p];
    }
  }

  // ---------------------------------------------------------------- strip

  /** `s.lstrip()`: the suffix of `s` after its leading whitespace. */
  function TrimLeft(s: string): (r: string)
    ensures |r| <= |s| && r == s[|s| - |r|..]
    ensures r == [] || !IsSpace(r[0])
    ensures forall i :: 0 <= i < |s| - |r| ==> IsSpace(s[i])
  {
    if s != [] && IsSpace(s[0]) then TrimLeft(s[1..]) else s
  }

  /** `s.rstrip()`: the prefix of `s` before its trailing whitespace. */
  function TrimRight(s: string): (r: string)
    ensures |r| <= |s| && r == s[..|r|]
    ensures r == [] || !IsSpace(r[|r| - 1])
    ensures forall i :: |r| <= i < |s| ==> IsSpace(s[i])
  {
    if s != [] && IsSpace(s[|s| - 1]) then TrimRight(s[..|s| - 1]) else s
  }

  /** Python's `s.strip()`. */
  function Strip(s: string): string
  {
    TrimRight(TrimLeft(s))
  }

  /** A needle that begins and ends with a non-blank character is found after `strip` exactly when it is found before. */
  lemma StripKeepsContainment(s: string, p: string)
    requires p != [] && !IsSpace(p[0]) && !IsSpace(p[|p| - 1])
    ensures Contains(Strip(s), p) <==> Contains(s, p)
  {
    TrimLeftKeepsContainment(s, p);
    TrimRightKeepsContainment(TrimLeft(s), p);
  }

  lemma TrimLeftKeepsContainment(s: string, p: string)
    requires p != [] && !IsSpace(p[0])
    ensures Contains(TrimLeft(s), p) <==> Contains(s, p)
  {
    if Contains(TrimLeft(s), p) {
      TrimLeftFoundInOriginal(s, p);
    }
    if Contains(s, p) {
      OriginalFoundInTrimLeft(s, p);
    }
  }

  lemma TrimLeftFoundInOriginal(s: string, p: string)
    requires Contains(TrimLeft(s), p)
    ensures Contains(s, p)
  {
    var r := TrimLeft(s);
    var d := |s| - |r|;
    var i: nat :| i <= |r| && OccursAt(r, p, i);
    OccursInSlice(s, p, d, |s|, i);
    assert OccursAt(s, p, d + i);
  }

  lemma OriginalFoundInTrimLeft(s: string, p: string)
    requires p != [] && !IsSpace(p[0]) && Contains(s, p)
    ensures Contains(TrimLeft(s), p)
  {
    var d := |s| - |TrimLeft(s)|;
    var i: nat :| i <= |s| && OccursAt(s, p, i);
    assert s[i] == p[0];
    assert i >= d;
    ShiftOccurrence(s, p, d, i);
    assert OccursAt(TrimLeft(s), p, i - d);
  }

  /** An occurrence in `s` at or after `d` is an occurrence in `s[d..]`. */
  lemma ShiftOccurrence(s: string, p: string, d: nat, i: nat)
    requires d <= i && OccursAt(s, p, i)
    ensures OccursAt(s[d..], p, i - d)
  {
    var t := s[d..];
    assert forall k :: 0 <= k < |p| ==> t[i - d + k] == s[i + k] == p[k];
    assert t[i - d..i - d + |p|] == p;
  }

  lemma TrimRightKeepsContainment(s: string, p: string)
    requires p != [] && !IsSpace(p[|p| - 1])
    ensures Contains(TrimRight(s), p) <==> Contains(s, p)
  {
    var r := TrimRight(s);
    if Contains(r, p) {
      var i: nat :| i <= |r| && OccursAt(r, p, i);
      OccursInSlice(s, p, 0, |r|, i);
    }
    if Contains(s, p) {
      var i: nat :| i <= |s| && OccursAt(s, p, i);
      assert s[i + |p| - 1] == p[|p| - 1];
      assert i + |p| <= |r|;
      assert r[i..i + |p|] == s[i..i + |p|];
      assert OccursAt(r, p, i);
    }
  }

  // ---------------------------------------------------------------- encodings

  /** `s.encode('ascii', 'ignore')`: the characters below 128, in order. */
  function DropNonAscii(s: string): (r: string)
    ensures IsAscii(r) && |r| <= |s|
  {
    if s == [] then [] else AsciiPart(s[0]) + DropNonAscii(s[1..])
  }

  function AsciiPart(c: char): (r: string)
    ensures IsAscii(r)
  {
    if c as int < 0x80 then [c] else []
  }

  /** ASCII text passes unchanged. */
  lemma {:induction false} DropNonAsciiOnAscii(s: string)
    requires IsAscii(s)
    ensures DropNonAscii(s) == s
  {
    if s != [] {
      DropNonAsciiOnAscii(s[1..]);
      assert s == [s[0]] + s[1..];
    }
  }

  lemma {:induction false} DropNonAsciiConcat(a: string, b: string)
    ensures DropNonAscii(a + b) == DropNonAscii(a) + DropNonAscii(b)
    decreases |a|
  {
    if a != [] {
      var head := AsciiPart(a[0]);
      var ab := a + b;
      assert ab[0] == a[0] && ab[1..] == a[1..] + b;
      calc {
        DropNonAscii(ab);
        head + DropNonAscii(a[1..] + b);
        { DropNonAsciiConcat(a[1..], b); }
        head + (DropNonAscii(a[1..]) + DropNonAscii(b));
        DropNonAscii(a) + DropNonAscii(b);
      }
    } else {
      assert a + b == b;
    }
  }

  /** The UTF-8 bytes of one character, each byte as the character with that code. */
  function EncodeChar(c: char): (r: string)
    ensures 1 <= |r| <= 4 && IsByteString(r)
    ensures c as int < 0x80 ==> r == [c]
    ensures c as int >= 0x80 ==> forall i :: 0 <= i < |r| ==> r[i] as int >= 0x80
  {
    var n := c as int;
    if n < 0x80 then [c]
    else if n < 0x800 then
      [(0xC0 + n / 0x40) as char, (0x80 + n % 0x40) as char]
    else if n < 0x10000 then
      [(0xE0 + n / 0x1000) as char, (0x80 + (n / 0x40) % 0x40) as char, (0x80 + n % 0x40) as char]
    else
      [(0xF0 + n / 0x40000) as char, (0x80 + (n / 0x1000) % 0x40) as char,
       (0x80 + (n / 0x40) % 0x40) as char, (0x80 + n % 0x40) as char]
  }

  /** `s.encode('utf-8')`. */
  function Utf8Encode(s: string): (r: string)
    ensures IsByteString(r) && |r| >= |s|
  {
    if s == [] then [] else EncodeChar(s[0]) + Utf8Encode(s[1..])
  }

  /** ASCII text is its own UTF-8 encoding. */
  lemma {:induction false} Utf8EncodeAscii(s: string)
    requires IsAscii(s)
    ensures Utf8Encode(s) == s
  {
    if s != [] {
      Utf8EncodeAscii(s[1..]);
      assert s == [s[0]] + s[1..];
    }
  }

  lemma {:induction false} Utf8EncodeConcat(a: string, b: string)
    ensures Utf8Encode(a + b) == Utf8Encode(a) + Utf8Encode(b)
    decreases |a|
  {
    if a == [] {
      assert a + b == b;
    } else {
      var ab := a + b;
      assert ab[0] == a[0] && ab[1..] == a[1..] + b;
      calc {
        Utf8Encode(ab);
        EncodeChar(a[0]) + Utf8Encode(a[1..] + b);
        { Utf8EncodeConcat(a[1..], b); }
        EncodeChar(a[0]) + (Utf8Encode(a[1..]) + Utf8Encode(b));
        Utf8Encode(a) + Utf8Encode(b);
      }
    }
  }

  /** An ASCII needle found in a text is still found in the text's UTF-8 bytes. */
  lemma Utf8KeepsAsciiNeedle(s: string, p: string)
    requires IsAscii(p) && Contains(s, p)
    ensures Contains(Utf8Encode(s), p)
  {
    var i: nat :| i <= |s| && OccursAt(s, p, i);
    var pre, post := s[..i], s[i + |p|..];
    CutAround(s, p, i);
    Utf8EncodeAround(pre, p, post);
    OccursInMiddle(Utf8Encode(pre), p, Utf8Encode(post));
  }

  lemma Utf8EncodeAround(pre: string, p: string, post: string)
    requires IsAscii(p)
    ensures Utf8Encode(pre + p + post) == Utf8Encode(pre) + p + Utf8Encode(post)
  {
    Utf8EncodeConcat(pre + p, post);
    Utf8EncodeConcat(pre, p);
    Utf8EncodeAscii(p);
  }

  lemma OccursInMiddle(a: string, p: string, b: string)
    ensures OccursAt(a + p + b, p, |a|)
  {
    assert (a + p + b)[|a|..|a| + |p|] == p;
  }

  // ---------------------------------------------------------------- numbers

  function DigitChar(d: nat): char
    requires d < 10
  {
    ('0' as int + d) as char
  }

  /** `str(n)` for a natural number. */
  function NatToString(n: nat): (r: string)
    ensures r != []
    ensures forall i :: 0 <= i < |r| ==> '0' <= r[i] <= '9'
  {
    if n < 10 then [DigitChar(n)] else NatToString(n / 10) + [DigitChar(n % 10)]
  }
}
