/** The UTF-8 structure check the host runs on every file it opens.  It looks
    only at the bit patterns of section 3 of RFC 3629: a lead byte announces a
    sequence of 1 to 4 bytes, and every byte after the lead must be a
    continuation byte 10xxxxxx.  The value ranges of that section are NOT
    checked, so overlong forms (C0 80), surrogates (ED A0 80) and code points
    above U+10FFFF (F4 90 80 80, F7 BF BF BF) are all accepted. */
module Utf8Structure {

  predicate IsContinuation(b: bv8) {
    b & 0xC0 == 0x80
  }

  /** `b` has the lead-byte pattern of an `n`-byte sequence. */
  predicate IsLead(b: bv8, n: int) {
    match n
    case 1 => b & 0x80 == 0x00
    case 2 => b & 0xE0 == 0xC0
    case 3 => b & 0xF0 == 0xE0
    case 4 => b & 0xF8 == 0xF0
    case _ => false
  }

  /** One encoded character, judged by bit patterns only. */
  predicate IsGroup(g: seq<bv8>) {
    |g| > 0 && IsLead(g[0], |g|) && forall k :: 1 <= k < |g| ==> IsContinuation(g[k])
  }

  /** The grammar the validator decides:  WellFormed ::= empty | Group WellFormed. */
  predicate WellFormed(s: seq<bv8>)
    decreases |s|
  {
    s == [] || exists n :: 1 <= n <= 4 && n <= |s| && IsGroup(s[..n]) && WellFormed(s[n..])
  }

  /** A byte announces at most one sequence length, and no lead byte is a
      continuation byte. */
  lemma LeadIsUnambiguous(b: bv8, n: int, m: int)
    requires IsLead(b, n)
    ensures IsLead(b, m) <==> m == n
    ensures !IsContinuation(b)
  {
  }

  /** Once a group is recognised at the front, the rest decides. */
  lemma WellFormedAfterGroup(s: seq<bv8>, n: int)
    requires 1 <= n <= |s| && IsGroup(s[..n])
    ensures WellFormed(s) <==> WellFormed(s[n..])
  {
    if WellFormed(s) {
      var m :| 1 <= m <= 4 && m <= |s| && IsGroup(s[..m]) && WellFormed(s[m..]);
      assert s[..m][0] == s[0] == s[..n][0];
      LeadIsUnambiguous(s[0], n, m);
    }
  }

  /** When the first byte is no lead byte, or the group it announces does not
      fit in `s` or has a byte that is no continuation, `s` is rejected. */
  lemma BrokenFirstGroup(s: seq<bv8>)
    requires s != []
    requires forall n :: IsLead(s[0], n) ==> n > |s| || exists k :: 1 <= k < n && !IsContinuation(s[k])
    ensures !WellFormed(s)
  {
  }

  /** The validator of the host (src/main.ts, isValidUtf8): a left-to-right
      scan that steps over one group at a time and stops at the first broken
      one. */
  method IsValidUtf8(buffer: seq<bv8>) returns (valid: bool)
    ensures valid <==> WellFormed(buffer)
  {
    var i := 0;
    assert buffer[i..] == buffer;
    while i < |buffer|
      invariant 0 <= i <= |buffer|
      invariant WellFormed(buffer) <==> WellFormed(buffer[i..])
      decreases |buffer| - i
    {
      var b := buffer[i];
      var n;
      if b < 0x80 {
        n := 1;
      } else if b & 0xE0 == 0xC0 {
        if i + 1 >= |buffer| || buffer[i + 1] & 0xC0 != 0x80 {
          Rejected(buffer, i, 2);
          return false;
        }
        n := 2;
      } else if b & 0xF0 == 0xE0 {
        if i + 2 >= |buffer| || buffer[i + 1] & 0xC0 != 0x80 || buffer[i + 2] & 0xC0 != 0x80 {
          Rejected(buffer, i, 3);
          return false;
        }
        n := 3;
      } else if b & 0xF8 == 0xF0 {
        if i + 3 >= |buffer| || buffer[i + 1] & 0xC0 != 0x80 || buffer[i + 2] & 0xC0 != 0x80
          || buffer[i + 3] & 0xC0 != 0x80 {
          Rejected(buffer, i, 4);
          return false;
        }
        n := 4;
      } else {
        Rejected(buffer, i, 0);
        return false;
      }
      Accepted(buffer, i, n);
      i := i + n;
    }
    return true;
  }

  /** Step of the scan: a whole group at position `i`. */
  lemma Accepted(buffer: seq<bv8>, i: int, n: int)
    requires 0 <= i && 1 <= n && i + n <= |buffer| && IsLead(buffer[i], n)
    requires forall j :: i < j < i + n ==> IsContinuation(buffer[j])
    ensures WellFormed(buffer[i..]) <==> WellFormed(buffer[i + n..])
  {
    var s := buffer[i..];
    assert s[..n][0] == buffer[i];
    assert forall k :: 1 <= k < n ==> s[..n][k] == buffer[i + k];
    assert s[n..] == buffer[i + n..];
    WellFormedAfterGroup(s, n);
  }

  /** Failure of the scan at position `i`: the byte there announces `n` bytes
      (0: it is no lead byte) and they are not all there. */
  lemma Rejected(buffer: seq<bv8>, i: int, n: int)
    requires 0 <= i < |buffer|
    requires n == 0 ==> forall m :: !IsLead(buffer[i], m)
    requires n != 0 ==> IsLead(buffer[i], n)
    requires n != 0 ==> i + n > |buffer| || exists j :: i < j < i + n && !IsContinuation(buffer[j])
    ensures !WellFormed(buffer[i..])
  {
    var s := buffer[i..];
    forall m | IsLead(s[0], m)
      ensures m > |s| || exists k :: 1 <= k < m && !IsContinuation(s[k])
    {
      LeadIsUnambiguous(s[0], m, n);
      if i + n <= |buffer| {
        var j :| i < j < i + n && !IsContinuation(buffer[j]);
        assert s[j - i] == buffer[j];
      }
    }
    BrokenFirstGroup(s);
  }

  /** The empty buffer and every all-ASCII buffer pass. */
  lemma {:induction false} AsciiIsWellFormed(s: seq<bv8>)
    requires forall i :: 0 <= i < |s| ==> s[i] < 0x80
    ensures WellFormed(s)
    decreases |s|
  {
    if s != [] {
      AsciiIsWellFormed(s[1..]);
      assert IsGroup(s[..1]);
    }
  }

  /** Groups are recognised from the front, so a well-formed prefix never
      changes the verdict on what follows it. */
  lemma {:induction false} WellFormedPrefix(p: seq<bv8>, t: seq<bv8>)
    requires WellFormed(p)
    ensures WellFormed(p + t) <==> WellFormed(t)
    decreases |p|
  {
    if p == [] {
      assert p + t == t;
    } else {
      var n :| 1 <= n <= 4 && n <= |p| && IsGroup(p[..n]) && WellFormed(p[n..]);
      assert (p + t)[..n] == p[..n];
      assert (p + t)[n..] == p[n..] + t;
      WellFormedAfterGroup(p + t, n);
      WellFormedPrefix(p[n..], t);
    }
  }

  /** A buffer that ends in the middle of a multi-byte sequence is rejected,
      whatever comes before: `t` starts with a lead byte announcing more bytes
      than `t` has. */
  lemma {:induction false} TruncatedTailRejected(s: seq<bv8>, t: seq<bv8>, n: int)
    requires t != [] && IsLead(t[0], n) && n > |t|
    ensures !WellFormed(s + t)
    decreases |s|
  {
    var u := s + t;
    if WellFormed(u) {
      var m :| 1 <= m <= 4 && m <= |u| && IsGroup(u[..m]) && WellFormed(u[m..]);
      if m <= |s| {
        DropOfConcat(s, t, m);
        TruncatedTailRejected(s[m..], t, n);
      } else if s != [] {
        ConcatIndex(s, t, m);
        LeadIsUnambiguous(t[0], n, m);
      }
    }
  }

  lemma DropOfConcat(s: seq<bv8>, t: seq<bv8>, m: int)
    requires 0 <= m <= |s|
    ensures (s + t)[m..] == s[m..] + t
  {
  }

  lemma ConcatIndex(s: seq<bv8>, t: seq<bv8>, m: int)
    requires 0 < |s| < m <= |s + t|
    ensures (s + t)[..m][|s|] == t[0]
  {
  }

  /** The example of a lone trailing 0xE2. */
  lemma LoneTrailingE2Rejected(s: seq<bv8>)
    ensures !WellFormed(s + [0xE2])
  {
    TruncatedTailRejected(s, [0xE2], 3);
  }

  /** What the bit-pattern check lets through although section 3 of RFC 3629
      forbids it. */
  lemma LaxnessExamples()
    ensures WellFormed([0xC0, 0x80])               // overlong NUL
    ensures WellFormed([0xC1, 0xBF])               // overlong U+007F
    ensures WellFormed([0xE0, 0x80, 0x80])         // overlong three-byte form
    ensures WellFormed([0xED, 0xA0, 0x80])         // surrogate U+D800
    ensures WellFormed([0xF4, 0x90, 0x80, 0x80])   // U+110000
    ensures WellFormed([0xF7, 0xBF, 0xBF, 0xBF])   // U+1FFFFF
  {
    AcceptsGroup([0xC0, 0x80]);
    AcceptsGroup([0xC1, 0xBF]);
    AcceptsGroup([0xE0, 0x80, 0x80]);
    AcceptsGroup([0xED, 0xA0, 0x80]);
    AcceptsGroup([0xF4, 0x90, 0x80, 0x80]);
    AcceptsGroup([0xF7, 0xBF, 0xBF, 0xBF]);
  }

  /** What it stops: bytes that cannot lead, and a lead followed by a byte
      that is no continuation. */
  lemma BadBytesRejected()
    ensures !WellFormed([0x80])                    // continuation byte as lead
    ensures !WellFormed([0xBF, 0x41])
    ensures !WellFormed([0xF8, 0x80, 0x80, 0x80, 0x80])
    ensures !WellFormed([0xFF])
    ensures !WellFormed([0xC3, 0x28])              // second byte no continuation
  {
    Rejected([0x80], 0, 0);
    Rejected([0xBF, 0x41], 0, 0);
    Rejected([0xF8, 0x80, 0x80, 0x80, 0x80], 0, 0);
    Rejected([0xFF], 0, 0);
    assert !IsContinuation([0xC3, 0x28][1]);
    Rejected([0xC3, 0x28], 0, 2);
  }

  lemma AcceptsGroup(g: seq<bv8>)
    requires 1 <= |g| <= 4 && IsGroup(g)
    ensures WellFormed(g)
  {
    assert g[..|g|] == g && g[|g|..] == [];
  }
}
