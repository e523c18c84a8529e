/** text.rs: cutting UTF-8 text to a number of bytes without cutting a character. */
module Truncation {
  import opened Seqs
  import Text

  type byte = x: int | 0 <= x < 256

  // ----- UTF-8 as section 3 of RFC 3629 defines it -----

  /** The last six bits of n as a continuation byte. */
  function Continuation(n: nat): (b: byte)
    ensures IsContinuation(b)
  {
    0x80 + n % 64
  }

  predicate IsContinuation(b: byte) {
    0x80 <= b < 0xC0
  }

  function Encode(c: char): (bs: seq<byte>)
    ensures 1 <= |bs| <= 4 && !IsContinuation(bs[0])
    ensures forall i :: 1 <= i < |bs| ==> IsContinuation(bs[i])
    ensures |bs| == Text.Utf8Size(c)
  {
    var u := c as int;
    if u < 0x80 then [u]
    else if u < 0x800 then [0xC0 + u / 64, Continuation(u)]
    else if u < 0x1_0000 then [0xE0 + u / 4096, Continuation(u / 64), Continuation(u)]
    else [0xF0 + u / 262144, Continuation(u / 4096), Continuation(u / 64), Continuation(u)]
  }

  function EncodeAll(s: string): seq<byte> {
    if s == "" then [] else Encode(s[0]) + EncodeAll(s[1..])
  }

  /** `str::is_char_boundary`. */
  predicate IsBoundary(bs: seq<byte>, i: nat) {
    i == 0 || i == |bs| || (i < |bs| && !IsContinuation(bs[i]))
  }

  /** Where the k-th character of s starts. */
  function Offset(s: string, k: nat): nat
    requires k <= |s|
  {
    |EncodeAll(s[..k])|
  }

  lemma {:induction false} EncodeAppend(a: string, b: string)
    ensures EncodeAll(a + b) == EncodeAll(a) + EncodeAll(b)
  {
    hide Encode;
    if a == "" {
      assert a + b == b;
    } else {
      assert (a + b)[1..] == a[1..] + b;
      EncodeAppend(a[1..], b);
    }
  }

  lemma EncodeCons(c: char, s: string)
    ensures EncodeAll([c] + s) == Encode(c) + EncodeAll(s)
  {
    hide Encode;
    assert ([c] + s)[1..] == s;
  }

  lemma OffsetNext(s: string, k: nat)
    requires k < |s|
    ensures Offset(s, k) < Offset(s, k + 1) <= Offset(s, k) + 4
  {
    hide Encode, EncodeAll;
    assert s[..k + 1] == s[..k] + [s[k]];
    EncodeAppend(s[..k], [s[k]]);
    EncodeCons(s[k], "");
    assert [s[k]] + "" == [s[k]];
    EncodeNothing();
  }

  lemma EncodeNothing()
    ensures EncodeAll("") == []
  {
  }

  lemma {:induction false} OffsetsGrow(s: string, j: nat, k: nat)
    requires j <= k <= |s|
    ensures Offset(s, j) <= Offset(s, k) && (j < k ==> Offset(s, j) < Offset(s, k))
  {
    hide Offset;
    if j < k {
      OffsetsGrow(s, j, k - 1);
      OffsetNext(s, k - 1);
    }
  }

  lemma OffsetCons(c: char, s: string, k: nat)
    requires k <= |s|
    ensures Offset([c] + s, k + 1) == |Encode(c)| + Offset(s, k) && Offset([c] + s, 0) == 0
  {
    hide Encode, EncodeAll;
    assert ([c] + s)[..k + 1] == [c] + s[..k];
    EncodeCons(c, s[..k]);
    assert ([c] + s)[..0] == "";
    EncodeNothing();
  }

  /** Behind the first character the boundaries are those of the rest. */
  lemma BoundaryBehind(first: seq<byte>, rest: seq<byte>, i: nat)
    requires |first| <= i && |first| > 0 && (rest == [] || !IsContinuation(rest[0]))
    ensures IsBoundary(first + rest, i) <==> IsBoundary(rest, i - |first|)
  {
  }

  lemma FirstByte(s: string)
    ensures EncodeAll(s) == [] || !IsContinuation(EncodeAll(s)[0])
  {
    hide Encode;
  }

  lemma ConsParts(s: string)
    requires s != ""
    ensures s == [s[0]] + s[1..]
  {
  }

  /** The boundaries of encoded text are the places where its characters start or end. */
  lemma {:induction false} BoundariesAreOffsets(s: string, i: nat)
    ensures IsBoundary(EncodeAll(s), i) <==> exists k :: 0 <= k <= |s| && Offset(s, k) == i
    decreases |s|
  {
    hide Encode, EncodeAll, Offset;
    if s == "" {
      EncodeNothing();
      OffsetOfNothing();
    } else {
      var c, rest := s[0], s[1..];
      ConsParts(s);
      EncodeCons(c, rest);
      FirstByte(rest);
      OffsetCons(c, rest, 0);
      var n := |Encode(c)|;
      if i == 0 {
        assert Offset(s, 0) == i;
      } else if i < n {
        assert IsContinuation(EncodeAll(s)[i]);
        forall k | 0 <= k <= |s| ensures Offset(s, k) != i {
          if k > 0 { OffsetCons(c, rest, k - 1); }
        }
      } else {
        BoundaryBehind(Encode(c), EncodeAll(rest), i);
        BoundariesAreOffsets(rest, i - n);
        if k :| 0 <= k <= |rest| && Offset(rest, k) == i - n {
          OffsetCons(c, rest, k);
          assert Offset(s, k + 1) == i;
        }
        if k :| 0 <= k <= |s| && Offset(s, k) == i {
          if k > 0 {
            OffsetCons(c, rest, k - 1);
            assert Offset(rest, k - 1) == i - n;
          }
        }
      }
    }
  }

  lemma OffsetOfNothing()
    ensures Offset("", 0) == 0
  {
  }

  /** The budget counts what the byte length counts. */
  lemma {:induction false} SameLength(s: string)
    ensures |EncodeAll(s)| == Text.ByteLen(s)
  {
    hide Encode;
    if s != "" { SameLength(s[1..]); }
  }

  // ----- the truncation -----

  /** How many characters of s fit into a number of bytes: the most that do. */
  ghost predicate Fits(s: string, budget: nat, k: nat) {
    k <= |s| && Text.ByteLen(s[..k]) <= budget && (k < |s| ==> Text.ByteLen(s[..k + 1]) > budget)
  }

  lemma OffsetIsByteLen(s: string, k: nat)
    requires k <= |s|
    ensures Offset(s, k) == Text.ByteLen(s[..k])
  {
    SameLength(s[..k]);
  }

  /** The last character that starts at or before a byte. */
  lemma {:induction false} CharacterAt(s: string, i: nat, n: nat) returns (k: nat)
    requires n <= |s| && i < Offset(s, n)
    ensures k < n && Offset(s, k) <= i < Offset(s, k + 1)
  {
    hide Offset;
    if n == 0 {
      OffsetStart(s);
    } else if Offset(s, n - 1) <= i {
      k := n - 1;
    } else {
      k := CharacterAt(s, i, n - 1);
    }
  }

  lemma OffsetStart(s: string)
    ensures Offset(s, 0) == 0 && Offset(s, |s|) == |EncodeAll(s)|
  {
    assert s[..0] == "" && s[..|s|] == s;
  }

  lemma PrefixOfBytes(s: string, k: nat)
    requires k <= |s|
    ensures Offset(s, k) <= |EncodeAll(s)| && EncodeAll(s)[..Offset(s, k)] == EncodeAll(s[..k])
  {
    hide Encode, EncodeAll;
    assert s == s[..k] + s[k..];
    EncodeAppend(s[..k], s[k..]);
  }

  lemma FitsFrom(s: string, budget: nat, i: nat, k: nat)
    requires k <= |s| && Offset(s, k) == i <= budget
    requires forall j :: i < j <= budget ==> !IsBoundary(EncodeAll(s), j)
    ensures Fits(s, budget, k)
  {
    hide Offset, EncodeAll, IsBoundary, Text.ByteLen;
    OffsetIsByteLen(s, k);
    if k < |s| { OffsetIsByteLen(s, k + 1); }
    if k < |s| && Offset(s, k + 1) <= budget {
      OffsetNext(s, k);
      BoundariesAreOffsets(s, Offset(s, k + 1));
    }
  }

  /** `truncate_at_char_boundary` on the bytes of s: the encoding of the longest prefix that fits.
      The loop moves back by at most three bytes. */
  method TruncateAtCharBoundary(s: string, budget: nat)
    returns (out: seq<byte>, ghost k: nat, ghost moved: nat)
    ensures Fits(s, budget, k) && out == EncodeAll(s[..k]) && |out| <= budget
    ensures moved <= 3 && (Text.ByteLen(s) > budget ==> |out| + moved == budget)
  {
    hide Encode, EncodeAll, Offset, IsBoundary, Text.ByteLen;
    SameLength(s);
    var bytes := EncodeAll(s);
    OffsetStart(s);
    moved := 0;
    if |bytes| <= budget {
      k := |s|;
      assert s[..|s|] == s;
      return bytes, k, moved;
    }
    ghost var c := CharacterAt(s, budget, |s|);
    OffsetNext(s, c);
    var end := budget;
    while end > 0 && !IsBoundary(bytes, end)
      invariant Offset(s, c) <= end <= budget && moved == budget - end
      invariant forall j :: end < j <= budget ==> !IsBoundary(bytes, j)
    {
      BoundariesAreOffsets(s, end);
      end := end - 1;
      moved := moved + 1;
    }
    ZeroIsBoundary(bytes);
    BoundariesAreOffsets(s, end);
    k :| 0 <= k <= |s| && Offset(s, k) == end;
    FitsFrom(s, budget, end, k);
    PrefixOfBytes(s, k);
    out := bytes[..end];
  }

  lemma ZeroIsBoundary(bs: seq<byte>)
    ensures IsBoundary(bs, 0)
  {
  }

  /** Only one prefix fits so closely, and every prefix that fits is part of it. */
  lemma LongestPrefix(s: string, budget: nat, k: nat, j: nat)
    requires Fits(s, budget, k) && j <= |s|
    ensures Text.ByteLen(s[..j]) <= budget <==> j <= k
  {
    hide Offset, Text.ByteLen;
    OffsetIsByteLen(s, j);
    OffsetIsByteLen(s, k);
    if k < |s| { OffsetIsByteLen(s, k + 1); }
    if j <= k {
      OffsetsGrow(s, j, k);
    } else {
      OffsetsGrow(s, k + 1, j);
    }
  }

  // ----- the encoding is one -----

  /** The bits a continuation byte adds to those before it. */
  function More(n: int, b: byte): int {
    n * 64 + (b as int - 0x80)
  }

  /** The scalar value that a first byte and its continuations stand for. */
  function Decode(bs: seq<byte>): int
    requires 1 <= |bs| <= 4
  {
    var first := bs[0] as int;
    if |bs| == 1 then first
    else if |bs| == 2 then More(first - 0xC0, bs[1])
    else if |bs| == 3 then More(More(first - 0xE0, bs[1]), bs[2])
    else More(More(More(first - 0xF0, bs[1]), bs[2]), bs[3])
  }

  lemma MoreOf(n: nat)
    ensures More(n / 64, Continuation(n)) == n
  {
  }

  lemma DivideTwice(n: nat)
    ensures n / 64 / 64 == n / 4096 && n / 4096 / 64 == n / 262144
  {
  }

  /** Every scalar value is read back from its encoding. */
  lemma DecodeEncode(c: char)
    ensures Decode(Encode(c)) == c as int
  {
    hide More, Continuation;
    var u := c as int;
    MoreOf(u);
    MoreOf(u / 64);
    MoreOf(u / 4096);
    DivideTwice(u);
  }
}
