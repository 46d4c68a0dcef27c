// Character classes of the URL lexer: the class constants, the 257-entry
// lookup table (256 byte values plus the end-of-input sentinel) and the
// small byte predicates built on it (lib/lexer.go).

module ByteClass {

  /** An unsigned 8-bit value (Go's byte). */
  newtype byte = x: int | 0 <= x < 0x100

  /** An unsigned 16-bit value (Go's uint16): the type of a class and of `next`'s result. */
  newtype u16 = x: int | 0 <= x < 0x1_0000

  // Class constants.  `Dig` is declared by the lexer but used by no table entry;
  // `Sp8` and `Sp9` share the value 0x28.
  const Inv: u16 := 0x00  // invalid everywhere
  const Vld: u16 := 0x01  // valid everywhere
  const Slh: u16 := 0x02  // slash
  const Dig: u16 := 0x03
  const Col: u16 := 0x04  // colon
  const Sp1: u16 := 0x21
  const Sp2: u16 := 0x22
  const Sp3: u16 := 0x23
  const Sp4: u16 := 0x24
  const Sp5: u16 := 0x25
  const Sp6: u16 := 0x26
  const Sp7: u16 := 0x27
  const Sp8: u16 := 0x28
  const Sp9: u16 := 0x28
  const Sn0: u16 := 0x30
  const Eof: u16 := 0x40

  /** The value `next` returns at the end of the input; it indexes the last table entry. */
  const EofSentinel: u16 := 256

  // Byte values the lexer and the driver refer to.
  const LF: byte := 10
  const Space: byte := 32
  const Colon: byte := 58
  const Slash: byte := 47
  const Question: byte := 63
  const At: byte := 64

  /** `http` and `https` as bytes. */
  const Http: seq<byte> := [104, 116, 116, 112]
  const Https: seq<byte> := [104, 116, 116, 112, 115]

  /** Entries 0x00-0x1F of the lookup table. */
  const Block00: seq<u16> := [
    /* 00-07  NUL SOH STX ETX EOT ENQ ACK BEL */
    Inv, Inv, Inv, Inv, Inv, Inv, Inv, Inv,
    /* 08-0F  BS  HT  LF  VT  FF  CR  SO  SI */
    Inv, Inv, Inv, Inv, Inv, Inv, Inv, Inv,
    /* 10-17  DLE DC1 DC2 DC3 DC4 NAK SYN ETB */
    Inv, Inv, Inv, Inv, Inv, Inv, Inv, Inv,
    /* 18-1F  CAN EM  SUB ESC FS  GS  RS  US */
    Inv, Inv, Inv, Inv, Inv, Inv, Inv, Inv
  ]

  /** Entries 0x20-0x3F of the lookup table. */
  const Block20: seq<u16> := [
    /* 20-27  SP  !   "   #   $   %   &   ' */
    Inv, Sp1, Inv, Sp2, Sp3, Sp4, Sp5, Sp6,
    /* 28-2F  (   )   *   +   ,   -   .   / */
    Inv, Inv, Inv, Inv, Inv, Inv, Vld, Slh,
    /* 30-37  0   1   2   3   4   5   6   7 */
    Vld, Vld, Vld, Vld, Vld, Vld, Vld, Vld,
    /* 38-3F  8   9   :   ;   <   =   >   ? */
    Vld, Vld, Col, Inv, Inv, Sp7, Inv, Sp8
  ]

  /** Entries 0x40-0x5F of the lookup table. */
  const Block40: seq<u16> := [
    /* 40-47  @   A   B   C   D   E   F   G */
    Sp9, Vld, Vld, Vld, Vld, Vld, Vld, Vld,
    /* 48-4F  H   I   J   K   L   M   N   O */
    Vld, Vld, Vld, Vld, Vld, Vld, Vld, Vld,
    /* 50-57  P   Q   R   S   T   U   V   W */
    Vld, Vld, Vld, Vld, Vld, Vld, Vld, Vld,
    /* 58-5F  X   Y   Z   [   \   ]   ^   _ */
    Vld, Vld, Vld, Inv, Inv, Inv, Inv, Sn0
  ]

  /** Entries 0x60-0x7F of the lookup table. */
  const Block60: seq<u16> := [
    /* 60-67  `   a   b   c   d   e   f   g */
    Inv, Vld, Vld, Vld, Vld, Vld, Vld, Vld,
    /* 68-6F  h   i   j   k   l   m   n   o */
    Vld, Vld, Vld, Vld, Vld, Vld, Vld, Vld,
    /* 70-77  p   q   r   s   t   u   v   w */
    Vld, Vld, Vld, Vld, Vld, Vld, Vld, Vld,
    /* 78-7F  x   y   z   {   |   }   ~   DEL */
    Vld, Vld, Vld, Inv, Inv, Inv, Inv, Inv
  ]

  /** Entries 0x80-0x9F of the lookup table. */
  const Block80: seq<u16> := [
    /* 80-87 */
    Inv, Inv, Inv, Inv, Inv, Inv, Inv, Inv,
    /* 88-8F */
    Inv, Inv, Inv, Inv, Inv, Inv, Inv, Inv,
    /* 90-97 */
    Inv, Inv, Inv, Inv, Inv, Inv, Inv, Inv,
    /* 98-9F */
    Inv, Inv, Inv, Inv, Inv, Inv, Inv, Inv
  ]

  /** Entries 0xA0-0xBF of the lookup table. */
  const BlockA0: seq<u16> := [
    /* A0-A7 */
    Inv, Inv, Inv, Inv, Inv, Inv, Inv, Inv,
    /* A8-AF */
    Inv, Inv, Inv, Inv, Inv, Inv, Inv, Inv,
    /* B0-B7 */
    Inv, Inv, Inv, Inv, Inv, Inv, Inv, Inv,
    /* B8-BF */
    Inv, Inv, Inv, Inv, Inv, Inv, Inv, Inv
  ]

  /** Entries 0xC0-0xDF of the lookup table. */
  const BlockC0: seq<u16> := [
    /* C0-C7 */
    Inv, Inv, Inv, Inv, Inv, Inv, Inv, Inv,
    /* C8-CF */
    Inv, Inv, Inv, Inv, Inv, Inv, Inv, Inv,
    /* D0-D7 */
    Inv, Inv, Inv, Inv, Inv, Inv, Inv, Inv,
    /* D8-DF */
    Inv, Inv, Inv, Inv, Inv, Inv, Inv, Inv
  ]

  /** Entries 0xE0-0xFF of the lookup table. */
  const BlockE0: seq<u16> := [
    /* E0-E7 */
    Inv, Inv, Inv, Inv, Inv, Inv, Inv, Inv,
    /* E8-EF */
    Inv, Inv, Inv, Inv, Inv, Inv, Inv, Inv,
    /* F0-F7 */
    Inv, Inv, Inv, Inv, Inv, Inv, Inv, Inv,
    /* F8-FF */
    Inv, Inv, Inv, Inv, Inv, Inv, Inv, Inv
  ]

  /** The lookup table, entry by entry as the lexer lists it, followed by the sentinel's class. */
  const Lookup: seq<u16> :=
    Block00 + (Block20 + (Block40 + (Block60 + (Block80 + (BlockA0 + (BlockC0 + (BlockE0 + [Eof])))))))

  predicate IsDigit(x: int) { '0' as int <= x <= '9' as int }
  predicate IsUpper(x: int) { 'A' as int <= x <= 'Z' as int }
  predicate IsLower(x: int) { 'a' as int <= x <= 'z' as int }

  /**
   * The class of a table index, described by character instead of by position:
   * an independent reading of the table, which LookupClass proves equal to it.
   */
  function ClassOf(x: int): u16
    requires 0 <= x <= 256
  {
    if x == 256 then Eof
    else if IsDigit(x) || IsUpper(x) || IsLower(x) || x == '.' as int then Vld
    else if x == '/' as int then Slh
    else if x == ':' as int then Col
    else if x == '!' as int then Sp1
    else if x == '#' as int then Sp2
    else if x == '$' as int then Sp3
    else if x == '%' as int then Sp4
    else if x == '&' as int then Sp5
    else if x == '\'' as int then Sp6
    else if x == '=' as int then Sp7
    else if x == '?' as int then Sp8
    else if x == '@' as int then Sp9
    else if x == '_' as int then Sn0
    else Inv
  }

  lemma BlockLengths()
    ensures |Block00| == |Block20| == |Block40| == |Block60| == 32
    ensures |Block80| == |BlockA0| == |BlockC0| == |BlockE0| == 32
  {
  }

  lemma PrefixAt<T>(a: seq<T>, b: seq<T>, x: int)
    requires 0 <= x < |a|
    ensures (a + b)[x] == a[x]
  {
  }

  lemma SuffixAt<T>(a: seq<T>, b: seq<T>, x: int)
    requires |a| <= x < |a| + |b|
    ensures (a + b)[x] == b[x - |a|]
  {
  }

  lemma Block00Classes()
    ensures forall x :: 0 <= x < 32 ==> Block00[x] == ClassOf(x + 0)
  {
  }

  lemma Block20Classes()
    ensures forall x :: 0 <= x < 32 ==> Block20[x] == ClassOf(x + 32)
  {
  }

  lemma Block40Classes()
    ensures forall x :: 0 <= x < 32 ==> Block40[x] == ClassOf(x + 64)
  {
  }

  lemma Block60Classes()
    ensures forall x :: 0 <= x < 32 ==> Block60[x] == ClassOf(x + 96)
  {
  }

  lemma Block80Classes()
    ensures forall x :: 0 <= x < 32 ==> Block80[x] == ClassOf(x + 128)
  {
  }

  lemma BlockA0Classes()
    ensures forall x :: 0 <= x < 32 ==> BlockA0[x] == ClassOf(x + 160)
  {
  }

  lemma BlockC0Classes()
    ensures forall x :: 0 <= x < 32 ==> BlockC0[x] == ClassOf(x + 192)
  {
  }

  lemma BlockE0Classes()
    ensures forall x :: 0 <= x < 32 ==> BlockE0[x] == ClassOf(x + 224)
  {
  }

  /** The sentinel entry: the table has 257 entries and the last is `Eof`. */
  lemma EofAt()
    ensures |Lookup| == 257 && Lookup[256] == Eof
  {
    BlockLengths();
  }

  lemma Block00At(x: int)
    requires 0 <= x < 32
    ensures Lookup[x] == Block00[x - 0]
  {
    BlockLengths();
    PrefixAt(Block00, Block20 + (Block40 + (Block60 + (Block80 + (BlockA0 + (BlockC0 + (BlockE0 + [Eof])))))), x - 0);
  }

  lemma Block20At(x: int)
    requires 32 <= x < 64
    ensures Lookup[x] == Block20[x - 32]
  {
    BlockLengths();
    SuffixAt(Block00, Block20 + (Block40 + (Block60 + (Block80 + (BlockA0 + (BlockC0 + (BlockE0 + [Eof])))))), x - 0);
    PrefixAt(Block20, Block40 + (Block60 + (Block80 + (BlockA0 + (BlockC0 + (BlockE0 + [Eof]))))), x - 32);
  }

  lemma Block40At(x: int)
    requires 64 <= x < 96
    ensures Lookup[x] == Block40[x - 64]
  {
    BlockLengths();
    SuffixAt(Block00, Block20 + (Block40 + (Block60 + (Block80 + (BlockA0 + (BlockC0 + (BlockE0 + [Eof])))))), x - 0);
    SuffixAt(Block20, Block40 + (Block60 + (Block80 + (BlockA0 + (BlockC0 + (BlockE0 + [Eof]))))), x - 32);
    PrefixAt(Block40, Block60 + (Block80 + (BlockA0 + (BlockC0 + (BlockE0 + [Eof])))), x - 64);
  }

  lemma Block60At(x: int)
    requires 96 <= x < 128
    ensures Lookup[x] == Block60[x - 96]
  {
    BlockLengths();
    SuffixAt(Block00, Block20 + (Block40 + (Block60 + (Block80 + (BlockA0 + (BlockC0 + (BlockE0 + [Eof])))))), x - 0);
    SuffixAt(Block20, Block40 + (Block60 + (Block80 + (BlockA0 + (BlockC0 + (BlockE0 + [Eof]))))), x - 32);
    SuffixAt(Block40, Block60 + (Block80 + (BlockA0 + (BlockC0 + (BlockE0 + [Eof])))), x - 64);
    PrefixAt(Block60, Block80 + (BlockA0 + (BlockC0 + (BlockE0 + [Eof]))), x - 96);
  }

  lemma Block80At(x: int)
    requires 128 <= x < 160
    ensures Lookup[x] == Block80[x - 128]
  {
    BlockLengths();
    SuffixAt(Block00, Block20 + (Block40 + (Block60 + (Block80 + (BlockA0 + (BlockC0 + (BlockE0 + [Eof])))))), x - 0);
    SuffixAt(Block20, Block40 + (Block60 + (Block80 + (BlockA0 + (BlockC0 + (BlockE0 + [Eof]))))), x - 32);
    SuffixAt(Block40, Block60 + (Block80 + (BlockA0 + (BlockC0 + (BlockE0 + [Eof])))), x - 64);
    SuffixAt(Block60, Block80 + (BlockA0 + (BlockC0 + (BlockE0 + [Eof]))), x - 96);
    PrefixAt(Block80, BlockA0 + (BlockC0 + (BlockE0 + [Eof])), x - 128);
  }

  lemma BlockA0At(x: int)
    requires 160 <= x < 192
    ensures Lookup[x] == BlockA0[x - 160]
  {
    BlockLengths();
    SuffixAt(Block00, Block20 + (Block40 + (Block60 + (Block80 + (BlockA0 + (BlockC0 + (BlockE0 + [Eof])))))), x - 0);
    SuffixAt(Block20, Block40 + (Block60 + (Block80 + (BlockA0 + (BlockC0 + (BlockE0 + [Eof]))))), x - 32);
    SuffixAt(Block40, Block60 + (Block80 + (BlockA0 + (BlockC0 + (BlockE0 + [Eof])))), x - 64);
    SuffixAt(Block60, Block80 + (BlockA0 + (BlockC0 + (BlockE0 + [Eof]))), x - 96);
    SuffixAt(Block80, BlockA0 + (BlockC0 + (BlockE0 + [Eof])), x - 128);
    PrefixAt(BlockA0, BlockC0 + (BlockE0 + [Eof]), x - 160);
  }

  lemma BlockC0At(x: int)
    requires 192 <= x < 224
    ensures Lookup[x] == BlockC0[x - 192]
  {
    BlockLengths();
    SuffixAt(Block00, Block20 + (Block40 + (Block60 + (Block80 + (BlockA0 + (BlockC0 + (BlockE0 + [Eof])))))), x - 0);
    SuffixAt(Block20, Block40 + (Block60 + (Block80 + (BlockA0 + (BlockC0 + (BlockE0 + [Eof]))))), x - 32);
    SuffixAt(Block40, Block60 + (Block80 + (BlockA0 + (BlockC0 + (BlockE0 + [Eof])))), x - 64);
    SuffixAt(Block60, Block80 + (BlockA0 + (BlockC0 + (BlockE0 + [Eof]))), x - 96);
    SuffixAt(Block80, BlockA0 + (BlockC0 + (BlockE0 + [Eof])), x - 128);
    SuffixAt(BlockA0, BlockC0 + (BlockE0 + [Eof]), x - 160);
    PrefixAt(BlockC0, BlockE0 + [Eof], x - 192);
  }

  lemma BlockE0At(x: int)
    requires 224 <= x < 256
    ensures Lookup[x] == BlockE0[x - 224]
  {
    BlockLengths();
    SuffixAt(Block00, Block20 + (Block40 + (Block60 + (Block80 + (BlockA0 + (BlockC0 + (BlockE0 + [Eof])))))), x - 0);
    SuffixAt(Block20, Block40 + (Block60 + (Block80 + (BlockA0 + (BlockC0 + (BlockE0 + [Eof]))))), x - 32);
    SuffixAt(Block40, Block60 + (Block80 + (BlockA0 + (BlockC0 + (BlockE0 + [Eof])))), x - 64);
    SuffixAt(Block60, Block80 + (BlockA0 + (BlockC0 + (BlockE0 + [Eof]))), x - 96);
    SuffixAt(Block80, BlockA0 + (BlockC0 + (BlockE0 + [Eof])), x - 128);
    SuffixAt(BlockA0, BlockC0 + (BlockE0 + [Eof]), x - 160);
    SuffixAt(BlockC0, BlockE0 + [Eof], x - 192);
    PrefixAt(BlockE0, [Eof], x - 224);
  }

  /** Every table entry is the class ClassOf gives its index. */
  lemma LookupClass(x: int)
    requires 0 <= x <= 256
    ensures |Lookup| == 257 && Lookup[x] == ClassOf(x)
  {
    EofAt();
    if x < 32 { Block00At(x); Block00Classes(); }
    else if x < 64 { Block20At(x); Block20Classes(); }
    else if x < 96 { Block40At(x); Block40Classes(); }
    else if x < 128 { Block60At(x); Block60Classes(); }
    else if x < 160 { Block80At(x); Block80Classes(); }
    else if x < 192 { BlockA0At(x); BlockA0Classes(); }
    else if x < 224 { BlockC0At(x); BlockC0Classes(); }
    else if x < 256 { BlockE0At(x); BlockE0Classes(); }
  }

  lemma OnlySentinelIsEof(x: int)
    requires 0 <= x <= 256
    ensures ClassOf(x) == Eof <==> x == 256
  {
  }

  /**
   * The lookup is total over the 256 byte values plus the sentinel, and the
   * sentinel is the only entry whose class is `Eof`.
   */
  lemma LookupTotal()
    ensures |Lookup| == 257
    ensures Lookup[EofSentinel] == Eof
    ensures forall x :: 0 <= x < 256 ==> Lookup[x] != Eof
  {
    EofAt();
    forall x | 0 <= x < 256
      ensures Lookup[x] != Eof
    {
      LookupClass(x);
      OnlySentinelIsEof(x);
    }
  }

  /** `?` and `@` share class 0x28 in the table, the class the path state tests for. */
  lemma QuestionAndAtShareClass()
    ensures |Lookup| == 257
    ensures Lookup[Question] == Sp8 && Lookup[At] == Sp8
  {
    LookupClass(Question as int);
    LookupClass(At as int);
  }

  /** The line feed and the space are invalid bytes in the table. */
  lemma LineFeedAndSpaceInvalid()
    ensures |Lookup| == 257
    ensures Lookup[LF] == Inv && Lookup[Space] == Inv
  {
    LookupClass(LF as int);
    LookupClass(Space as int);
  }

  /** The class of a byte: the table entry at its index, in the form LookupClass proves it equal to. */
  function Class(b: byte): (c: u16)
    ensures c != Eof
    ensures c == Vld <==> IsDigit(b as int) || IsUpper(b as int) || IsLower(b as int) || b == 46
    ensures c == Slh <==> b == Slash
    ensures c == Col <==> b == Colon
    ensures c == Sp8 <==> b == Question || b == At
  {
    ClassOf(b as int)
  }

  /** The punctuation the table classes as something other than invalid (the period is valid). */
  const Marks: string := "./:!#$%&'=?@_"

  predicate IsMark(b: byte)
  {
    b as int as char in Marks
  }

  /** The bytes the table marks invalid: everything but digits, letters and the marks. */
  lemma InvalidClass(b: byte)
    ensures Class(b) == Inv <==> !(IsDigit(b as int) || IsUpper(b as int) || IsLower(b as int)) && !IsMark(b)
  {
  }

  /** isValidAll: the byte is in the class valid in every state: a digit, a letter or the period. */
  predicate IsValidAll(ch: byte)
    ensures IsValidAll(ch) <==> IsDigit(ch as int) || IsUpper(ch as int) || IsLower(ch as int) || ch == 46
  {
    Class(ch) == Vld
  }

  /** isHttpWord: the word is exactly `http`, four lower-case letters, all valid in a scheme. */
  predicate IsHttpWord(word: seq<byte>)
    ensures IsHttpWord(word) ==> |word| == 4 && forall i :: 0 <= i < 4 ==> IsValidAll(word[i])
  {
    word == Http
  }

  /**
   * isHttpsWord: the word is exactly `https`.  It starts with `http`, and its
   * last four bytes are not `http`, so after the `https` trim the lexer's
   * `http` test fails.
   */
  predicate IsHttpsWord(word: seq<byte>)
    ensures IsHttpsWord(word) ==> |word| == 5 && IsHttpWord(word[..4]) && !IsHttpWord(word[1..])
  {
    word == Https
  }
}
