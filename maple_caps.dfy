/**
  Capability strings (maple_pcaps in maple_utils.c). A 32-bit function mask is
  rendered as the names of its set bits, most significant bit first, separated
  by ", ". Bit i (counted from the top) is named by maple_cap_names[i]; a bit
  without a name is written as UNKNOWN followed by its mask value as eight
  lower-case hex digits in parentheses.
*/
module MapleCaps {
  import opened Wrappers

  /** The number of entries of maple_cap_names. */
  const CapTableSize := 16

  /**
    maple_cap_names[i]: the name of bit i, None for a NULL slot. Every name is
    non-empty, at most ten characters long, and has no comma.
  */
  function CapName(i: nat): (name: Option<string>)
    requires i < CapTableSize
    ensures name.Some? ==> 0 < |name.value| <= 10 && ',' !in name.value
  {
    match i
    case 0 => Some("LightGun") case 1 => Some("Keyboard") case 2 => Some("Argun")
    case 3 => Some("Microphone") case 4 => Some("Clock") case 5 => Some("LCD")
    case 6 => Some("MemoryCard") case 7 => Some("Controller")
    case 12 => Some("Camera") case 14 => Some("Mouse") case 15 => Some("JumpPack")
    case _ => None
  }

  /** The number of bits in a function mask. */
  const MaskBits := 32

  /** caps_buffer: the static buffer the string is written into. */
  const CapsBufferSize := 64

  /** The text written after every token; the last one is cut off again. */
  const Separator := ", "

  /** The mask tested for bit i: the top bit shifted right i times (MaskIsShift). */
  function BitMask(i: nat): bv32
    requires i < MaskBits
  {
    if i == 0 then 0x8000_0000 else BitMask(i - 1) >> 1
  }

  /** BitMask(i) is the source's 0x80000000 >> i. */
  lemma {:induction false} MaskIsShift(i: nat)
    requires i < MaskBits
    ensures BitMask(i) == 0x8000_0000 >> i
  {
    if i > 0 {
      MaskIsShift(i - 1);
    }
  }

  predicate HasBit(functions: bv32, i: nat)
    requires i < MaskBits
  {
    functions & BitMask(i) != 0
  }

  /** Later bits have smaller masks: each step shifts right by one. */
  lemma {:induction false} MaskMonotone(i: nat, j: nat)
    requires i <= j < MaskBits
    ensures BitMask(j) <= BitMask(i)
    decreases j - i
  {
    if i < j {
      MaskMonotone(i, j - 1);
    }
  }

  /** No mask is zero: even the last one, BitMask(31), is 1. */
  lemma {:induction false} MaskNonZero(i: nat)
    requires i < MaskBits
    ensures BitMask(i) != 0
  {
    MaskMonotone(i, MaskBits - 1);
    MaskIsShift(31);
  }

  /** Distinct bits have distinct masks. */
  lemma {:induction false} BitMaskInjective(i: nat, j: nat)
    requires i < MaskBits && j < MaskBits && i != j
    ensures BitMask(i) != BitMask(j)
  {
    if i < j {
      MaskNonZero(i);
      MaskMonotone(i + 1, j);
    } else {
      MaskNonZero(j);
      MaskMonotone(j + 1, i);
    }
  }

  // ---- Hexadecimal digits, as printed by %08x ----

  predicate IsHexDigit(c: char) {
    '0' <= c <= '9' || 'a' <= c <= 'f'
  }

  function HexChar(d: nat): (c: char)
    requires d < 16
    ensures IsHexDigit(c)
  {
    if d < 10 then ('0' as int + d) as char else ('a' as int + d - 10) as char
  }

  function DigitValue(c: char): (d: nat)
    requires IsHexDigit(c)
    ensures d < 16
  {
    if c <= '9' then c as int - '0' as int else c as int - 'a' as int + 10
  }

  lemma {:induction false} DigitValueOfHexChar(d: nat)
    requires d < 16
    ensures DigitValue(HexChar(d)) == d
  {
  }

  /** 16 to the power n. */
  function Pow16(n: nat): (p: nat)
    ensures p >= 1
  {
    if n == 0 then 1 else 16 * Pow16(n - 1)
  }

  /** The low n hex digits of v, most significant first (printf's %0nx for v < 16^n). */
  function HexDigits(v: nat, n: nat): (s: string)
    ensures |s| == n
    ensures forall k | 0 <= k < |s| :: IsHexDigit(s[k])
  {
    if n == 0 then [] else HexDigits(v / 16, n - 1) + [HexChar(v % 16)]
  }

  /** The value of a string of hex digits, most significant first. */
  function ParseHex(s: string): nat
    requires forall k | 0 <= k < |s| :: IsHexDigit(s[k])
  {
    if s == [] then 0 else 16 * ParseHex(s[..|s| - 1]) + DigitValue(s[|s| - 1])
  }

  /** Printing a value in n hex digits and reading it back gives the value, when it fits. */
  lemma {:induction false} ParseHexDigits(v: nat, n: nat)
    requires v < Pow16(n)
    ensures ParseHex(HexDigits(v, n)) == v
  {
    if n > 0 {
      var s := HexDigits(v, n);
      assert s[..n - 1] == HexDigits(v / 16, n - 1);
      ParseHexDigits(v / 16, n - 1);
      DigitValueOfHexChar(v % 16);
    }
  }

  // ---- Tokens ----

  predicate AllHex(s: string) {
    forall k | 0 <= k < |s| :: IsHexDigit(s[k])
  }

  const UnknownPrefix := "UNKNOWN("

  /** The length of every UNKNOWN token: the prefix, eight digits and ')'. */
  const UnknownLength := 17

  /** The token for a bit without a name: "UNKNOWN(%08x)" of its mask. */
  function UnknownToken(i: nat): (tok: string)
    requires i < MaskBits
    ensures |tok| == UnknownLength && ',' !in tok
  {
    var digits := HexDigits(BitMask(i) as int, 8);
    assert forall k | 0 <= k < 8 :: digits[k] != ',';
    UnknownPrefix + digits + ")"
  }

  /**
    The token maple_pcaps writes for set bit i: its name, or the UNKNOWN form
    when the bit lies past the table or its slot is NULL.
  */
  function Token(i: nat): (tok: string)
    requires i < MaskBits
    ensures |tok| == TokenLength(i) && ',' !in tok
  {
    if i >= CapTableSize || CapName(i).None? then UnknownToken(i)
    else CapName(i).value
  }

  /** The length of bit i's token: its name's, or UnknownLength. */
  function TokenLength(i: nat): (len: nat)
    requires i < MaskBits
    ensures 0 < len <= UnknownLength
  {
    if i >= CapTableSize || CapName(i).None? then UnknownLength else |CapName(i).value|
  }

  /** The bit whose mask is w, searching from bit k. */
  function BitIndex(w: bv32, k: nat): (r: Option<nat>)
    requires k <= MaskBits
    ensures r.Some? ==> k <= r.value < MaskBits && BitMask(r.value) == w
    decreases MaskBits - k
  {
    if k == MaskBits then None
    else if BitMask(k) == w then Some(k)
    else BitIndex(w, k + 1)
  }

  /** The bit an "UNKNOWN(%08x)" token stands for, when its value is a single bit. */
  function ParseUnknown(tok: string): (r: Option<nat>)
    ensures r.Some? ==> r.value < MaskBits
  {
    if |tok| == UnknownLength && tok[..8] == UnknownPrefix && tok[16] == ')' && AllHex(tok[8..16]) then
      var v := ParseHex(tok[8..16]);
      if v < 0x1_0000_0000 then BitIndex(v as bv32, 0) else None
    else None
  }

  /** The first slot from k on whose name is tok. */
  function FindName(tok: string, k: nat): (r: Option<nat>)
    requires k <= CapTableSize
    ensures r.Some? ==> k <= r.value < CapTableSize && CapName(r.value) == Some(tok)
    decreases CapTableSize - k
  {
    if k == CapTableSize then None
    else if CapName(k) == Some(tok) then Some(k)
    else FindName(tok, k + 1)
  }

  /** The bit a token stands for: the slot of a table name, else the bit of an UNKNOWN token. */
  function TokenIndex(tok: string): (r: Option<nat>)
    ensures r.Some? ==> r.value < MaskBits
  {
    match FindName(tok, 0)
    case Some(j) => Some(j)
    case None => ParseUnknown(tok)
  }

  /** Searching for the mask of bit i from any bit up to i finds i. */
  lemma {:induction false} BitIndexOfMask(i: nat, k: nat)
    requires k <= i < MaskBits
    ensures BitIndex(BitMask(i), k) == Some(i)
    decreases i - k
  {
    if k < i {
      BitMaskInjective(k, i);
      BitIndexOfMask(i, k + 1);
    }
  }

  /** No two slots of maple_cap_names hold the same name. */
  lemma {:induction false} CapNamesDistinct(j: nat, i: nat)
    requires j < i < CapTableSize && CapName(i).Some?
    ensures CapName(j) != CapName(i)
  {
    if i == 1 {} else if i == 2 {} else if i == 3 {} else if i == 4 {} else if i == 5 {}
    else if i == 6 {} else if i == 7 {} else if i == 12 {} else if i == 14 {} else if i == 15 {}
  }

  /** Every token names its own bit: TokenIndex inverts Token. */
  lemma {:induction false} TokenRoundTrip(i: nat)
    requires i < MaskBits
    ensures TokenIndex(Token(i)) == Some(i)
  {
    if i < CapTableSize && CapName(i).Some? {
      FindCapName(i, 0);
    } else {
      UnknownTokenRoundTrip(i);
    }
  }

  /** Looking up a name from any slot up to its own finds its own slot. */
  lemma {:induction false} FindCapName(i: nat, k: nat)
    requires k <= i < CapTableSize && CapName(i).Some?
    ensures FindName(CapName(i).value, k) == Some(i)
    decreases i - k
  {
    if k < i {
      CapNamesDistinct(k, i);
      FindCapName(i, k + 1);
    }
  }

  /** An UNKNOWN token is too long to be a name. */
  lemma {:induction false} UnknownIsNoCapName(i: nat)
    requires i < MaskBits
    ensures FindName(UnknownToken(i), 0) == None
  {
  }

  /** An UNKNOWN token is read back as its bit. */
  lemma {:induction false} ParseUnknownToken(i: nat)
    requires i < MaskBits
    ensures ParseUnknown(UnknownToken(i)) == Some(i)
  {
    var tok := UnknownToken(i);
    var v := BitMask(i) as int;
    var digits := HexDigits(v, 8);
    assert tok[..8] == UnknownPrefix && tok[8..16] == digits && tok[16] == ')';
    assert Pow16(8) == 0x1_0000_0000;
    ParseHexDigits(v, 8);
    BitIndexOfMask(i, 0);
  }

  lemma {:induction false} UnknownTokenRoundTrip(i: nat)
    requires i < MaskBits
    ensures TokenIndex(UnknownToken(i)) == Some(i)
  {
    UnknownIsNoCapName(i);
    ParseUnknownToken(i);
  }

  // ---- Joining and splitting ----

  /** The tokens separated by ", " (the string maple_pcaps leaves after cutting the last separator). */
  function Join(ts: seq<string>): string {
    if ts == [] then ""
    else if |ts| == 1 then ts[0]
    else ts[0] + Separator + Join(ts[1..])
  }

  /** Every token followed by ", " (what the loop of maple_pcaps has written). */
  function Terminated(ts: seq<string>): string {
    if ts == [] then "" else ts[0] + Separator + Terminated(ts[1..])
  }

  /** Appending one token to the loop's output appends it and a separator. */
  lemma {:induction false} TerminatedSnoc(ts: seq<string>, t: string)
    ensures Terminated(ts + [t]) == Terminated(ts) + t + Separator
  {
    if ts != [] {
      assert (ts + [t])[1..] == ts[1..] + [t];
      TerminatedSnoc(ts[1..], t);
    } else {
      assert Terminated([t][1..]) == "";
    }
  }

  /** For at least one token the loop's output is the joined string followed by one separator. */
  lemma {:induction false} TerminatedIsJoinPlusSeparator(ts: seq<string>)
    requires ts != []
    ensures Terminated(ts) == Join(ts) + Separator
  {
    if |ts| > 1 {
      TerminatedIsJoinPlusSeparator(ts[1..]);
    }
  }

  /** The first position of c in s, or |s|. */
  function IndexOf(s: string, c: char): (r: nat)
    ensures r <= |s|
    ensures r < |s| ==> s[r] == c
    ensures c !in s[..r]
  {
    if s == [] then 0
    else if s[0] == c then 0
    else
      var r := IndexOf(s[1..], c);
      assert s[..r + 1] == [s[0]] + s[1..][..r];
      1 + r
  }

  /** The pieces of s between the ", " separators; None when a comma is not followed by a space. */
  function Split(s: string): Option<seq<string>>
    decreases |s|
  {
    var c := IndexOf(s, ',');
    if c == |s| then Some([s])
    else if c + 1 < |s| && s[c + 1] == ' ' then
      match Split(s[c + 2..])
      case None => None
      case Some(rest) => Some([s[..c]] + rest)
    else None
  }

  /** The first comma of t + ", " + rest is the separator's, when t has none. */
  lemma {:induction false} IndexOfAfterToken(t: string, rest: string)
    requires ',' !in t
    ensures IndexOf(t + Separator + rest, ',') == |t|
  {
    var s := t + Separator + rest;
    var r := IndexOf(s, ',');
    assert s[..|t|] == t && s[|t|] == ',';
  }

  /** Splitting a comma-free token, a separator and more text splits off the token. */
  lemma {:induction false} SplitAfterToken(t: string, rest: string)
    requires ',' !in t
    ensures Split(t + Separator + rest) == match Split(rest)
      case None => None
      case Some(ts) => Some([t] + ts)
  {
    var s := t + Separator + rest;
    IndexOfAfterToken(t, rest);
    assert s[..|t|] == t && s[|t| + 2..] == rest;
  }

  /** Splitting a string joined from comma-free tokens gives the tokens back. */
  lemma {:induction false} SplitJoin(ts: seq<string>)
    requires ts != []
    requires forall k | 0 <= k < |ts| :: ',' !in ts[k]
    ensures Split(Join(ts)) == Some(ts)
  {
    if |ts| == 1 {
      assert Join(ts) == ts[0] && [ts[0]] == ts;
    } else {
      var rest := ts[1..];
      assert forall k | 0 <= k < |rest| :: ',' !in rest[k] by {
        forall k | 0 <= k < |rest| ensures ',' !in rest[k] {
          assert rest[k] == ts[k + 1];
        }
      }
      assert Join(ts) == ts[0] + Separator + Join(rest);
      SplitAfterToken(ts[0], Join(rest));
      SplitJoin(rest);
      assert [ts[0]] + rest == ts;
    }
  }

  /** The bits each token of ts stands for, or None if one of them stands for none. */
  function DecodeAll(ts: seq<string>): (r: Option<seq<nat>>)
    ensures r.Some? ==> |r.value| == |ts|
  {
    if ts == [] then Some([])
    else match (TokenIndex(ts[0]), DecodeAll(ts[1..]))
      case (Some(i), Some(rest)) => Some([i] + rest)
      case _ => None
  }

  // ---- The capability string of a mask ----

  predicate ValidBits(bits: seq<nat>) {
    forall k | 0 <= k < |bits| :: bits[k] < MaskBits
  }

  /** The set bits among the first n, in the order maple_pcaps visits them. */
  function SetBits(functions: bv32, n: nat): (bits: seq<nat>)
    requires n <= MaskBits
    ensures ValidBits(bits) && |bits| <= n
    ensures forall k | 0 <= k < |bits| :: bits[k] < n
  {
    if n == 0 then []
    else SetBits(functions, n - 1) + (if HasBit(functions, n - 1) then [n - 1] else [])
  }

  /** The list holds exactly the set bits below n, in increasing order. */
  lemma {:induction false} SetBitsSpec(functions: bv32, n: nat)
    requires n <= MaskBits
    ensures forall k: nat :: k in SetBits(functions, n) <==> k < n && HasBit(functions, k)
    ensures forall j, k | 0 <= j < k < |SetBits(functions, n)| :: SetBits(functions, n)[j] < SetBits(functions, n)[k]
  {
    if n > 0 {
      SetBitsSpec(functions, n - 1);
    }
  }

  /** The bits above the first n cleared: the masks of bits 0 .. n-1 together. */
  function HighBits(n: nat): bv32
    requires n <= MaskBits
  {
    if n == 0 then 0 else HighBits(n - 1) | BitMask(n - 1)
  }

  /** Together the 32 masks cover the whole word. */
  lemma {:induction false} HighBitsAll()
    ensures HighBits(MaskBits) == 0xffff_ffff
  {
    assert HighBits(8) == 0xff00_0000;
    assert HighBits(16) == 0xffff_0000;
    assert HighBits(24) == 0xffff_ff00;
  }

  lemma {:induction false} NoSetBitsClearsHigh(functions: bv32, n: nat)
    requires n <= MaskBits
    requires SetBits(functions, n) == []
    ensures functions & HighBits(n) == 0
  {
    if n > 0 {
      NoSetBitsClearsHigh(functions, n - 1);
    }
  }

  /** A mask has a set bit exactly when it is not zero. */
  lemma {:induction false} SetBitsEmpty(functions: bv32)
    ensures SetBits(functions, MaskBits) == [] <==> functions == 0
  {
    if SetBits(functions, MaskBits) == [] {
      NoSetBitsClearsHigh(functions, MaskBits);
      HighBitsAll();
    } else {
      SetBitsSpec(functions, MaskBits);
      var k := SetBits(functions, MaskBits)[0];
      assert k in SetBits(functions, MaskBits);
    }
  }

  /** The tokens for a list of bits. */
  function Tokens(bits: seq<nat>): (ts: seq<string>)
    requires ValidBits(bits)
    ensures |ts| == |bits|
  {
    seq(|bits|, k requires 0 <= k < |bits| => Token(bits[k]))
  }

  /** Decoding the tokens of a list of bits gives the bits back. */
  lemma {:induction false} DecodeTokens(bits: seq<nat>)
    requires ValidBits(bits)
    ensures DecodeAll(Tokens(bits)) == Some(bits)
  {
    if bits != [] {
      assert Tokens(bits)[1..] == Tokens(bits[1..]);
      TokenRoundTrip(bits[0]);
      DecodeTokens(bits[1..]);
      assert [bits[0]] + bits[1..] == bits;
    }
  }

  /** The capability string of a non-zero mask. */
  function CapsString(functions: bv32): string {
    Join(Tokens(SetBits(functions, MaskBits)))
  }

  /** Reading a capability string back: the bits its tokens stand for. */
  function ParseCaps(s: string): Option<seq<nat>> {
    match Split(s)
    case None => None
    case Some(ts) => DecodeAll(ts)
  }

  /**
    The capability string of a non-zero mask names exactly its set bits, in
    increasing bit order (decreasing mask value).
  */
  lemma {:induction false} CapsRoundTrip(functions: bv32)
    requires functions != 0
    ensures ParseCaps(CapsString(functions)) == Some(SetBits(functions, MaskBits))
  {
    var bits := SetBits(functions, MaskBits);
    SetBitsEmpty(functions);
    SplitJoin(Tokens(bits));
    DecodeTokens(bits);
  }

  // ---- maple_pcaps and its buffer ----

  /**
    What the loop of maple_pcaps has written after visiting the first n bits:
    the token of every set bit among them, each followed by ", ".
  */
  function Written(functions: bv32, n: nat): string
    requires n <= MaskBits
  {
    Terminated(Tokens(SetBits(functions, n)))
  }

  /** Visiting a set bit writes its token and a separator after what is there. */
  lemma {:induction false} WrittenStepSet(functions: bv32, n: nat)
    requires n < MaskBits && HasBit(functions, n)
    ensures Written(functions, n + 1) == Written(functions, n) + Token(n) + Separator
  {
    var bits := SetBits(functions, n);
    SetBitsSetUnfold(functions, n);
    TerminatedTokensSnoc(bits, n);
  }

  /** Visiting a clear bit writes nothing. */
  lemma {:induction false} WrittenStepClear(functions: bv32, n: nat)
    requires n < MaskBits && !HasBit(functions, n)
    ensures Written(functions, n + 1) == Written(functions, n)
  {
    assert SetBits(functions, n + 1) == SetBits(functions, n);
  }

  lemma {:induction false} SetBitsSetUnfold(functions: bv32, n: nat)
    requires n < MaskBits && HasBit(functions, n)
    ensures SetBits(functions, n + 1) == SetBits(functions, n) + [n]
  {
  }

  /** The loop's output for one more bit is the output so far, that bit's token and a separator. */
  lemma {:induction false} TerminatedTokensSnoc(bits: seq<nat>, i: nat)
    requires ValidBits(bits) && i < MaskBits
    ensures ValidBits(bits + [i])
    ensures Terminated(Tokens(bits + [i])) == Terminated(Tokens(bits)) + Token(i) + Separator
  {
    TokensSnoc(bits, i);
    TerminatedSnoc(Tokens(bits), Token(i));
  }

  /** The tokens of one more bit are one more token. */
  lemma {:induction false} TokensSnoc(bits: seq<nat>, i: nat)
    requires ValidBits(bits) && i < MaskBits
    ensures ValidBits(bits + [i]) && Tokens(bits + [i]) == Tokens(bits) + [Token(i)]
  {
    assert ValidBits(bits + [i]);
  }

  /** The loop writes nothing exactly when the mask is zero. */
  lemma {:induction false} WrittenEmpty(functions: bv32)
    ensures Written(functions, MaskBits) == "" <==> functions == 0
  {
    SetBitsEmpty(functions);
    if SetBits(functions, MaskBits) != [] {
      var ts := Tokens(SetBits(functions, MaskBits));
      assert |Terminated(ts)| >= |ts[0]|;
    }
  }

  /** After the loop, the written text of a non-zero mask is its capability string and one separator. */
  lemma {:induction false} WrittenIsCapsString(functions: bv32)
    requires functions != 0
    ensures Written(functions, MaskBits) == CapsString(functions) + Separator
  {
    SetBitsEmpty(functions);
    TerminatedIsJoinPlusSeparator(Tokens(SetBits(functions, MaskBits)));
  }

  /**
    caps_buffer and maple_pcaps. `text` is the NUL-terminated string in the
    buffer; the buffer is modelled large enough for every mask (see
    BytesWrittenBound), not as the source's 64 bytes.
  */
  class CapsBuffer {
    var text: string

    /** The static buffer starts zeroed: the empty string. */
    constructor ()
      ensures text == ""
    {
      text := "";
    }

    /**
      maple_pcaps: write the token and ", " of every set bit, then cut the last
      separator. A zero mask writes nothing, so the previous string is returned.
    */
    method PCaps(functions: bv32) returns (r: string)
      modifies this
      ensures text == if functions == 0 then old(text) else CapsString(functions)
      ensures r == text
    {
      var o := WriteTokens(functions);
      if o > 0 {
        assert functions != 0 && text[..o - |Separator|] == CapsString(functions) by {
          WrittenEmpty(functions);
          WrittenIsCapsString(functions);
        }
        o := o - |Separator|;
        text := text[..o];
      } else {
        assert functions == 0 by {
          WrittenEmpty(functions);
        }
      }
      r := text;
    }

    /**
      The loop of maple_pcaps: for each set bit, from the top, write its token
      and ", " at offset o and advance o past them.
    */
    method WriteTokens(functions: bv32) returns (o: nat)
      modifies this
      ensures o == |Written(functions, MaskBits)|
      ensures o == 0 ==> text == old(text)
      ensures o > 0 ==> text == Written(functions, MaskBits)
    {
      o := 0;
      var i := 0;
      while i < MaskBits
        invariant 0 <= i <= MaskBits
        invariant o == |Written(functions, i)|
        invariant o == 0 ==> text == old(text)
        invariant o > 0 ==> text == Written(functions, i)
      {
        if HasBit(functions, i) {
          o := WriteToken(functions, i, o);
        } else {
          WrittenStepClear(functions, i);
        }
        i := i + 1;
      }
    }

    /**
      One step of the loop of maple_pcaps for a set bit i: write its token
      and ", " at offset o and return the offset just past them.
    */
    method WriteToken(functions: bv32, i: nat, o: nat) returns (next: nat)
      requires i < MaskBits && HasBit(functions, i)
      requires o == |Written(functions, i)| && (o > 0 ==> text == Written(functions, i))
      modifies this
      ensures next == |Written(functions, i + 1)| && next > 0
      ensures text == Written(functions, i + 1)
    {
      var tok := Token(i);
      WrittenStepSet(functions, i);
      assert text[..o] == Written(functions, i);
      text := text[..o] + tok + Separator;
      next := o + |tok| + |Separator|;
    }
  }

  // ---- Defects of the source ----

  /**
    The guard of maple_pcaps as written: the table is read unless i exceeds
    its size (true means maple_cap_names[i] is read). Every bit with a slot
    reads it, and bit 16, one past the 16-entry table, is the only bit that
    passes the guard without a slot.
  */
  function ReadsTableAsWritten(i: nat): (r: bool)
    requires i < MaskBits
    ensures i < CapTableSize ==> r
    ensures r && i >= CapTableSize <==> i == CapTableSize
  {
    !(i > CapTableSize)
  }

  /**
    The bytes maple_pcaps writes into caps_buffer: every token with its
    separator, then the terminating NUL, before the last separator is cut.
  */
  function BytesWritten(functions: bv32): nat {
    |Written(functions, MaskBits)| + 1
  }

  /** The most any mask makes maple_pcaps write: the bytes of 0xffffffff. */
  const MaxBytesWritten := 500

  /** The length of the loop's output after n bits when every bit is set. */
  function FullWidth(n: nat): nat
    requires n <= MaskBits
  {
    if n == 0 then 0 else FullWidth(n - 1) + TokenLength(n - 1) + |Separator|
  }

  /** After n bits, any mask has written at most what a full mask writes. */
  lemma {:induction false} WrittenWithinFullWidth(functions: bv32, n: nat)
    requires n <= MaskBits
    ensures |Written(functions, n)| <= FullWidth(n)
  {
    var lens := seq(MaskBits + 1, k requires 0 <= k <= MaskBits => |Written(functions, k)|);
    forall i | 0 <= i < MaskBits
      ensures lens[i + 1] <= lens[i] + TokenLength(i) + |Separator|
    {
      WrittenGrowth(functions, i);
    }
    WrittenNone(functions);
    GrowthWithinFullWidth(lens, n);
  }

  /**
    Lengths that start at zero and grow at bit i by at most its token and a
    separator stay within FullWidth.
  */
  lemma {:induction false} GrowthWithinFullWidth(lens: seq<nat>, n: nat)
    requires |lens| == MaskBits + 1 && lens[0] == 0 && n <= MaskBits
    requires forall i | 0 <= i < MaskBits :: lens[i + 1] <= lens[i] + TokenLength(i) + |Separator|
    ensures lens[n] <= FullWidth(n)
  {
    if n > 0 {
      GrowthWithinFullWidth(lens, n - 1);
    }
  }

  /** Before the first bit, nothing is written. */
  lemma {:induction false} WrittenNone(functions: bv32)
    ensures Written(functions, 0) == ""
  {
    assert Tokens([]) == [];
  }

  /** Visiting bit i adds at most its token and a separator. */
  lemma {:induction false} WrittenGrowth(functions: bv32, i: nat)
    requires i < MaskBits
    ensures |Written(functions, i + 1)| <= |Written(functions, i)| + TokenLength(i) + |Separator|
  {
    if HasBit(functions, i) {
      WrittenStepSet(functions, i);
    } else {
      WrittenStepClear(functions, i);
    }
  }

  /** With every bit set, the loop writes exactly FullWidth(n) characters for n bits. */
  lemma {:induction false} FullMaskWritesFullWidth(functions: bv32, n: nat)
    requires functions == 0xffff_ffff && n <= MaskBits
    ensures |Written(functions, n)| == FullWidth(n)
  {
    var lens := seq(MaskBits + 1, k requires 0 <= k <= MaskBits => |Written(functions, k)|);
    forall i | 0 <= i < MaskBits
      ensures lens[i + 1] == lens[i] + TokenLength(i) + |Separator|
    {
      MaskNonZero(i);
      WrittenStepSet(functions, i);
    }
    WrittenNone(functions);
    FullGrowthIsFullWidth(lens, n);
  }

  /** Lengths that start at zero and grow at bit i by exactly its token and a separator are FullWidth. */
  lemma {:induction false} FullGrowthIsFullWidth(lens: seq<nat>, n: nat)
    requires |lens| == MaskBits + 1 && lens[0] == 0 && n <= MaskBits
    requires forall i | 0 <= i < MaskBits :: lens[i + 1] == lens[i] + TokenLength(i) + |Separator|
    ensures lens[n] == FullWidth(n)
  {
    if n > 0 {
      FullGrowthIsFullWidth(lens, n - 1);
    }
  }

  /** The sixteen table slots: eleven names of 70 characters and five UNKNOWN tokens, each with a separator. */
  lemma {:induction false} FullWidthOfTable()
    ensures FullWidth(CapTableSize) == 195
  {
    FullWidthOfSlots12();
  }

  /** Slots 0 to 3: LightGun, Keyboard, Argun, Microphone. */
  lemma {:induction false} FullWidthOfSlots4()
    ensures FullWidth(4) == 39
  {
  }

  /** Slots 4 to 7: Clock, LCD, MemoryCard, Controller. */
  lemma {:induction false} FullWidthOfSlots8()
    ensures FullWidth(8) == 75
  {
    FullWidthOfSlots4();
  }

  /** Slots 8 to 11: four NULL slots. */
  lemma {:induction false} FullWidthOfSlots12()
    ensures FullWidth(12) == 151
  {
    FullWidthOfSlots8();
  }

  /** Each bit past the table adds an UNKNOWN token and a separator, 19 characters. */
  lemma {:induction false} FullWidthPastTable(k: nat)
    requires CapTableSize + k <= MaskBits
    ensures FullWidth(CapTableSize + k) == 195 + 19 * k
  {
    if k == 0 {
      FullWidthOfTable();
    } else {
      FullWidthPastTable(k - 1);
    }
  }

  /** What maple_pcaps writes never exceeds MaxBytesWritten bytes. */
  lemma {:induction false} BytesWrittenBound(functions: bv32)
    ensures BytesWritten(functions) <= MaxBytesWritten
  {
    WrittenWithinFullWidth(functions, MaskBits);
    FullWidthPastTable(MaskBits - CapTableSize);
  }

  /** The mask 0xffffffff reaches the bound: maple_pcaps writes exactly MaxBytesWritten bytes for it. */
  lemma {:induction false} FullMaskBytesWritten(functions: bv32)
    requires functions == 0xffff_ffff
    ensures BytesWritten(functions) == MaxBytesWritten
  {
    FullMaskWritesFullWidth(functions, MaskBits);
    FullWidthPastTable(MaskBits - CapTableSize);
  }

  /**
    The mask 0x0000000f has four bits without a name: maple_pcaps writes four
    17-character UNKNOWN tokens with their separators and a NUL, 77 bytes,
    into the 64-byte caps_buffer.
  */
  lemma {:induction false} OverflowExample(functions: bv32)
    requires functions == 0x0000_000f
    ensures BytesWritten(functions) == 77 > CapsBufferSize
  {
    NoLowBits(functions, 28);
    assert Written(functions, 28) == "" by {
      WrittenNone(functions);
    }
    LowBitsSet(functions);
    UnknownBitWritten(functions, 28);
    UnknownBitWritten(functions, 29);
    UnknownBitWritten(functions, 30);
    UnknownBitWritten(functions, 31);
  }

  /** A set bit without a name adds an UNKNOWN token and a separator, 19 characters. */
  lemma {:induction false} UnknownBitWritten(functions: bv32, i: nat)
    requires CapTableSize <= i < MaskBits && HasBit(functions, i)
    ensures |Written(functions, i + 1)| == |Written(functions, i)| + UnknownLength + |Separator|
  {
    WrittenStepSet(functions, i);
  }

  /** 0x0000000f sets the last four bits. */
  lemma {:induction false} LowBitsSet(functions: bv32)
    requires functions == 0x0000_000f
    ensures HasBit(functions, 28) && HasBit(functions, 29) && HasBit(functions, 30) && HasBit(functions, 31)
  {
    MaskIsShift(28);
    MaskIsShift(29);
    MaskIsShift(30);
    MaskIsShift(31);
  }

  /** 0x0000000f sets none of the first n <= 28 bits. */
  lemma {:induction false} NoLowBits(functions: bv32, n: nat)
    requires functions == 0x0000_000f && n <= 28
    ensures SetBits(functions, n) == []
  {
    if n > 0 {
      NoLowBits(functions, n - 1);
      MaskIsShift(n - 1);
      assert !HasBit(functions, n - 1);
    }
  }
}
