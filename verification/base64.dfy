/** The Base64 text of a page cursor: a block encoder and a bit-buffer decoder. */
module Base64 {
  import opened Common

  type Byte = x: int | 0 <= x < 256 witness 0

  /** The alphabet, position by position: capitals, small letters, digits, plus, slash. */
  function CharAt(i: int): char
    requires 0 <= i < 64
  {
    if i < 26 then 'A' + i as char
    else if i < 52 then 'a' + (i - 26) as char
    else if i < 62 then '0' + (i - 52) as char
    else if i == 62 then '+'
    else '/'
  }

  // ----- reference -----

  /** The characters of a full block, and of a block that ends the input early. */
  function Block(b: seq<Byte>): string
    requires 1 <= |b| <= 3
  {
    var i0 := b[0] / 4;
    if |b| == 1 then [CharAt(i0), CharAt(b[0] % 4 * 16), '=', '=']
    else
      var i1 := b[0] % 4 * 16 + b[1] / 16;
      if |b| == 2 then [CharAt(i0), CharAt(i1), CharAt(b[1] % 16 * 4), '=']
      else [CharAt(i0), CharAt(i1), CharAt(b[1] % 16 * 4 + b[2] / 64), CharAt(b[2] % 64)]
  }

  function FullBlocks(bytes: seq<Byte>): string
    requires |bytes| % 3 == 0
    decreases |bytes|
  {
    if bytes == [] then "" else FullBlocks(bytes[..|bytes| - 3]) + Block(bytes[|bytes| - 3..])
  }

  function Encode(bytes: seq<Byte>): string {
    var n := |bytes| / 3 * 3;
    FullBlocks(bytes[..n]) + if n < |bytes| then Block(bytes[n..]) else ""
  }

  function Sextet(c: char): Option<int> {
    if 'A' <= c <= 'Z' then Some(c as int - 'A' as int)
    else if 'a' <= c <= 'z' then Some(c as int - 'a' as int + 26)
    else if '0' <= c <= '9' then Some(c as int - '0' as int + 52)
    else if c == '+' then Some(62)
    else if c == '/' then Some(63)
    else None
  }

  /** The decoder between two characters. */
  datatype Bits = Bits(output: seq<Byte>, buffer: int, collected: nat) | Invalid

  function Feed(st: Bits, c: char): Bits {
    var v := Sextet(c);
    if st.Invalid? || v.None? then Invalid
    else
      var buffer, collected := st.buffer * 64 + v.value, st.collected + 6;
      if collected < 8 then Bits(st.output, buffer, collected)
      else
        var p := Pow2(collected - 8);
        Bits(st.output + [buffer / p % 256], buffer % p, collected - 8)
  }

  function FeedAll(s: string): Bits
    decreases |s|
  {
    if s == "" then Bits([], 0, 0) else Feed(FeedAll(Front(s)), Last(s))
  }

  function TrimPadding(s: string): string
    decreases |s|
  {
    if s != "" && Last(s) == '=' then TrimPadding(Front(s)) else s
  }

  function Decode(s: string): Option<seq<Byte>> {
    var st := FeedAll(TrimPadding(s));
    if st.Invalid? then None else Some(st.output)
  }

  // ----- what is decoded, as a number -----

  /** The bytes as the digits of one number. */
  function Number(bytes: seq<Byte>): nat
    decreases |bytes|
  {
    if bytes == [] then 0 else Number(Front(bytes)) * 256 + Last(bytes)
  }

  predicate InAlphabet(s: string) {
    forall i | 0 <= i < |s| :: Sextet(s[i]).Some?
  }

  /** The characters as the digits of one number. */
  function Number64(s: string): nat
    requires InAlphabet(s)
    decreases |s|
  {
    if s == "" then 0
    else
      assert forall i | 0 <= i < |Front(s)| :: s[i] == Front(s)[i];
      Number64(Front(s)) * 64 + Sextet(Last(s)).value
  }

  lemma PowersOfTwo()
    ensures Pow2(0) == 1 && Pow2(2) == 4 && Pow2(4) == 16 && Pow2(6) == 64
  {
  }

  predicate Balanced(st: Bits, n: nat, value: nat) {
    && st.Bits? && st.collected in {0, 2, 4, 6} && 0 <= st.buffer < Pow2(st.collected)
    && 6 * n == 8 * |st.output| + st.collected
    && value == Number(st.output) * Pow2(st.collected) + st.buffer
  }

  lemma FeedKeepsBalance(st: Bits, c: char, n: nat, value: nat)
    requires Balanced(st, n, value) && Sextet(c).Some?
    ensures Balanced(Feed(st, c), n + 1, value * 64 + Sextet(c).value)
    ensures st.buffer * 64 + Sextet(c).value < 0x1_0000_0000
  {
    hide Sextet;
    PowersOfTwo();
    SextetIsSmall(c);
    var next, buffer := Feed(st, c), st.buffer * 64 + Sextet(c).value;
    if st.collected > 0 {
      var p := Pow2(st.collected - 2);
      assert next.output == st.output + [buffer / p % 256] && Front(next.output) == st.output;
      Completes(Number(st.output), st.collected, st.buffer, Sextet(c).value);
    }
  }

  lemma SextetIsSmall(c: char)
    ensures Sextet(c).Some? ==> 0 <= Sextet(c).value < 64
  {
  }

  lemma Completes(number: int, collected: nat, buffer: int, v: int)
    requires collected in {2, 4, 6} && 0 <= buffer < Pow2(collected) && 0 <= v < 64
    ensures var p := Pow2(collected - 2); var b := buffer * 64 + v;
            && 0 <= b / p < 256 && 0 <= b % p < p
            && (number * Pow2(collected) + buffer) * 64 + v == (number * 256 + b / p) * p + b % p
  {
    PowersOfTwo();
  }

  /** Every character adds six bits, every byte takes eight; at most six are left over and dropped. */
  lemma {:induction false} DecodedIsTheNumber(s: string)
    requires InAlphabet(s)
    ensures Balanced(FeedAll(s), |s|, Number64(s))
    decreases |s|
  {
    hide Feed, Sextet;
    PowersOfTwo();
    if s != "" {
      assert forall i | 0 <= i < |Front(s)| :: s[i] == Front(s)[i];
      DecodedIsTheNumber(Front(s));
      FeedKeepsBalance(FeedAll(Front(s)), Last(s), |s| - 1, Number64(Front(s)));
    }
  }

  /** A text is refused exactly if a character before the padding is foreign. */
  lemma {:induction false} RefusedIffForeign(s: string)
    ensures FeedAll(s).Invalid? <==> !InAlphabet(s)
    decreases |s|
  {
    if s != "" {
      RefusedIffForeign(Front(s));
      assert forall i | 0 <= i < |Front(s)| :: s[i] == Front(s)[i];
    }
  }

  /** The alphabet in ASCII codes, as in Table 1 of RFC 4648. */
  lemma AlphabetCodes(i: int)
    requires 0 <= i < 64
    ensures CharAt(i) as int == if i < 26 then 65 + i else if i < 52 then 71 + i else if i < 62 then i - 4
                                else if i == 62 then 43 else 47
  {
  }

  // ----- round trip -----

  lemma SextetOfChar(i: int)
    requires 0 <= i < 64
    ensures Sextet(CharAt(i)) == Some(i) && CharAt(i) != '='
  {
  }

  lemma FeedAppends(s: string, c: char)
    ensures FeedAll(s + [c]) == Feed(FeedAll(s), c)
  {
    assert Front(s + [c]) == s;
  }

  /** The characters of a block without its padding. */
  function Unpadded(b: seq<Byte>): string
    requires 1 <= |b| <= 3
  {
    Block(b)[..|b| + 1]
  }

  /** One more sextet on a buffer of six, four or two bits completes a byte. */
  lemma FeedCompletes(output: seq<Byte>, buffer: int, collected: nat, v: int, byte: Byte, left: int)
    requires 0 <= v < 64 && collected in {2, 4, 6}
    requires buffer * 64 + v == byte * Pow2(collected - 2) + left && 0 <= left < Pow2(collected - 2)
    ensures Feed(Bits(output, buffer, collected), CharAt(v)) == Bits(output + [byte], left, collected - 2)
  {
    hide CharAt, Sextet, Pow2;
    SextetOfChar(v);
    PowersOfTwo();
    DivisionIs(buffer * 64 + v, byte, Pow2(collected - 2), left);
  }

  lemma DivisionIs(n: int, byte: Byte, p: nat, left: int)
    requires p in {1, 4, 16} && n == byte * p + left && 0 <= left < p
    ensures n / p % 256 == byte && n % p == left
  {
    if p == 1 {
    } else if p == 4 {
    } else {
    }
  }

  lemma FeedStarts(output: seq<Byte>, v: int)
    requires 0 <= v < 64
    ensures Feed(Bits(output, 0, 0), CharAt(v)) == Bits(output, v, 6)
  {
    SextetOfChar(v);
  }

  lemma FeedTwo(output: seq<Byte>, a: Byte, low: int)
    requires 0 <= low < 16
    ensures Feed(Feed(Bits(output, 0, 0), CharAt(a / 4)), CharAt(a % 4 * 16 + low)) == Bits(output + [a], low, 4)
  {
    FeedStarts(output, a / 4);
    PowersOfTwo();
    FeedCompletes(output, a / 4, 6, a % 4 * 16 + low, a, low);
  }

  lemma FeedThird(output: seq<Byte>, b: Byte, low: int)
    requires 0 <= low < 4
    ensures Feed(Bits(output, b / 16, 4), CharAt(b % 16 * 4 + low)) == Bits(output + [b], low, 2)
  {
    PowersOfTwo();
    FeedCompletes(output, b / 16, 4, b % 16 * 4 + low, b, low);
  }

  lemma FeedFourth(output: seq<Byte>, c: Byte)
    ensures Feed(Bits(output, c / 64, 2), CharAt(c % 64)) == Bits(output + [c], 0, 0)
  {
    PowersOfTwo();
    FeedCompletes(output, c / 64, 2, c % 64, c, 0);
  }

  lemma FeedAppendsTwo(s: string, c: char, d: char)
    ensures FeedAll(s + [c, d]) == Feed(Feed(FeedAll(s), c), d)
  {
    FeedAppends(s, c);
    FeedAppends(s + [c], d);
    assert s + [c] + [d] == s + [c, d];
  }

  /** Reading a block with nothing pending gives its bytes; the bits left over are zero. */
  lemma BlockIsRead(s: string, b: seq<Byte>, output: seq<Byte>)
    requires 1 <= |b| <= 3 && FeedAll(s) == Bits(output, 0, 0)
    ensures FeedAll(s + Unpadded(b)) == Bits(output + b, 0, if |b| == 1 then 4 else if |b| == 2 then 2 else 0)
  {
    hide FeedAll, Feed, CharAt;
    var u := Unpadded(b);
    FeedAppendsTwo(s, u[0], u[1]);
    if |b| == 1 {
      FeedTwo(output, b[0], 0);
      assert u == [u[0], u[1]] && [b[0]] == b;
    } else {
      FeedTwo(output, b[0], b[1] / 16);
      var s', out' := s + [u[0], u[1]], output + [b[0]];
      if |b| == 2 {
        FeedAppends(s', u[2]);
        FeedThird(out', b[1], 0);
        assert s' + [u[2]] == s + u && out' + [b[1]] == output + b;
      } else {
        FeedAppendsTwo(s', u[2], u[3]);
        FeedThird(out', b[1], b[2] / 64);
        FeedFourth(out' + [b[1]], b[2]);
        assert s' + [u[2], u[3]] == s + u && out' + [b[1]] + [b[2]] == output + b;
      }
    }
  }

  lemma {:induction false} FullBlocksAreRead(bytes: seq<Byte>)
    requires |bytes| % 3 == 0
    ensures FeedAll(FullBlocks(bytes)) == Bits(bytes, 0, 0)
    decreases |bytes|
  {
    if bytes != [] {
      var front, b := bytes[..|bytes| - 3], bytes[|bytes| - 3..];
      FullBlocksAreRead(front);
      BlockIsRead(FullBlocks(front), b, front);
      hide FeedAll, Block;
      BlockIsPadded(b);
      assert Unpadded(b) == Block(b) && front + b == bytes;
    }
  }

  lemma {:induction false} PaddingIsTrimmed(s: string, n: nat, padding: string)
    requires s == "" || Last(s) != '='
    requires padding == seq(n, i => '=')
    ensures TrimPadding(s + padding) == s
    decreases n
  {
    if n == 0 {
      assert s + padding == s;
    } else {
      var shorter := seq(n - 1, i => '=');
      PaddingIsTrimmed(s, n - 1, shorter);
      assert Front(s + padding) == s + shorter && Last(s + padding) == '=';
    }
  }

  lemma BlockIsPadded(b: seq<Byte>)
    requires 1 <= |b| <= 3
    ensures Block(b) == Unpadded(b) + seq(3 - |b|, i => '=') && Last(Unpadded(b)) != '='
  {
  }

  lemma FullBlocksHaveNoPadding(bytes: seq<Byte>)
    requires |bytes| % 3 == 0
    ensures FullBlocks(bytes) == "" || Last(FullBlocks(bytes)) != '='
  {
    if bytes != [] { BlockIsPadded(bytes[|bytes| - 3..]); }
  }

  /** Decoding what was encoded gives it back, whatever the bytes and however many. */
  lemma DecodeReversesEncode(bytes: seq<Byte>)
    ensures Decode(Encode(bytes)) == Some(bytes)
  {
    hide FullBlocks, Block, Unpadded, TrimPadding, FeedAll;
    var n := |bytes| / 3 * 3;
    var blocks, rest := FullBlocks(bytes[..n]), bytes[n..];
    FullBlocksAreRead(bytes[..n]);
    FullBlocksHaveNoPadding(bytes[..n]);
    if n == |bytes| {
      assert Encode(bytes) == blocks + "" == blocks && bytes[..n] == bytes;
      PaddingIsTrimmed(blocks, 0, "");
    } else {
      BlockIsPadded(rest);
      BlockIsRead(blocks, rest, bytes[..n]);
      var padding := seq(3 - |rest|, i => '=');
      PaddingIsTrimmed(blocks + Unpadded(rest), 3 - |rest|, padding);
      assert Encode(bytes) == blocks + Block(rest) == blocks + Unpadded(rest) + padding;
      assert bytes[..n] + rest == bytes;
    }
  }

  // ----- which texts come back -----

  lemma CharOfSextet(c: char)
    requires Sextet(c).Some?
    ensures 0 <= Sextet(c).value < 64 && CharAt(Sextet(c).value) == c
  {
  }

  /** The first two characters of a block complete its first byte. */
  lemma ReadTwo(output: seq<Byte>, c: char, d: char, v: int, w: int)
    requires Sextet(c) == Some(v) && Sextet(d) == Some(w)
    ensures 0 <= v < 64 && 0 <= w < 64
    ensures Feed(Feed(Bits(output, 0, 0), c), d) == Bits(output + [v * 4 + w / 16], w % 16, 4)
  {
    CharOfSextet(c);
    CharOfSextet(d);
    hide Sextet, CharAt, Feed;
    PowersOfTwo();
    FeedStarts(output, v);
    FeedCompletes(output, v, 6, w, v * 4 + w / 16, w % 16);
  }

  lemma ReadThird(output: seq<Byte>, left: int, c: char, v: int)
    requires Sextet(c) == Some(v) && 0 <= left < 16
    ensures 0 <= v < 64 && Feed(Bits(output, left, 4), c) == Bits(output + [left * 16 + v / 4], v % 4, 2)
  {
    CharOfSextet(c);
    hide Sextet, CharAt, Feed;
    PowersOfTwo();
    FeedCompletes(output, left, 4, v, left * 16 + v / 4, v % 4);
  }

  lemma ReadFourth(output: seq<Byte>, left: int, c: char, v: int)
    requires Sextet(c) == Some(v) && 0 <= left < 4
    ensures 0 <= v < 64 && Feed(Bits(output, left, 2), c) == Bits(output + [left * 64 + v], 0, 0)
  {
    CharOfSextet(c);
    hide Sextet, CharAt, Feed;
    PowersOfTwo();
    FeedCompletes(output, left, 2, v, left * 64 + v, 0);
  }

  /** What a text of two to four characters gives when nothing is pending, and when that is encoded to the text again. */
  lemma ReadBlock(s: string, output: seq<Byte>, u: string) returns (b: seq<Byte>)
    requires FeedAll(s) == Bits(output, 0, 0) && 2 <= |u| <= 4 && InAlphabet(u)
    ensures |b| == |u| - 1 && FeedAll(s + u).Bits? && FeedAll(s + u).output == output + b
    ensures FeedAll(s + u).buffer == 0 <==> Unpadded(b) == u
    ensures |b| == 3 ==> FeedAll(s + u) == Bits(output + b, 0, 0) && Block(b) == u
  {
    hide FeedAll, Feed, Sextet, CharAt;
    var v, w := Sextet(u[0]).value, Sextet(u[1]).value;
    FeedAppendsTwo(s, u[0], u[1]);
    ReadTwo(output, u[0], u[1], v, w);
    CharOfSextet(u[0]);
    CharOfSextet(u[1]);
    var a: Byte := v * 4 + w / 16;
    FirstCharacters(a, v, w);
    if |u| == 2 {
      b := [a];
      assert u == [u[0], u[1]];
      SameCharacter(a % 4 * 16, w, u[1]);
    } else {
      var s', out' := s + [u[0], u[1]], output + [a];
      var x := Sextet(u[2]).value;
      ReadThird(out', w % 16, u[2], x);
      CharOfSextet(u[2]);
      var c: Byte := w % 16 * 16 + x / 4;
      if |u| == 3 {
        b := [a, c];
        FeedAppends(s', u[2]);
        assert s' + [u[2]] == s + u && out' + [c] == output + b;
        SameCharacter(c % 16 * 4, x, u[2]);
        assert c / 16 == w % 16;
      } else {
        var y := Sextet(u[3]).value;
        FeedAppendsTwo(s', u[2], u[3]);
        ReadFourth(out' + [c], x % 4, u[3], y);
        CharOfSextet(u[3]);
        var e: Byte := x % 4 * 64 + y;
        b := [a, c, e];
        assert s' + [u[2], u[3]] == s + u && out' + [c] + [e] == output + b;
        LastCharacters(w, x, y, c, e);
      }
    }
  }

  lemma FirstCharacters(a: Byte, v: int, w: int)
    requires 0 <= v < 64 && 0 <= w < 64 && a == v * 4 + w / 16
    ensures a / 4 == v && a % 4 * 16 + w % 16 == w
  {
  }

  lemma LastCharacters(w: int, x: int, y: int, c: Byte, e: Byte)
    requires 0 <= w < 64 && 0 <= x < 64 && 0 <= y < 64 && c == w % 16 * 16 + x / 4 && e == x % 4 * 64 + y
    ensures c / 16 == w % 16 && c % 16 * 4 + e / 64 == x && e % 64 == y
  {
  }

  /** Different positions hold different characters. */
  lemma SameCharacter(i: int, v: int, c: char)
    requires 0 <= i < 64 && 0 <= v < 64 && CharAt(v) == c
    ensures CharAt(i) == c <==> i == v
  {
    SextetOfChar(i);
    SextetOfChar(v);
  }

  lemma InAlphabetSplits(s: string, n: nat)
    requires n <= |s| && InAlphabet(s)
    ensures InAlphabet(s[..n]) && InAlphabet(s[n..])
  {
  }

  lemma {:induction false} BlocksComeBack(s: string)
    requires InAlphabet(s) && |s| % 4 == 0
    ensures var st := FeedAll(s);
            st.Bits? && st.buffer == 0 && st.collected == 0 && |st.output| % 3 == 0 && FullBlocks(st.output) == s
    decreases |s|
  {
    hide FeedAll, Block, InAlphabet, FullBlocks;
    if s == "" {
      NothingFed();
    } else {
      var n := |s| - 4;
      InAlphabetSplits(s, n);
      BlocksComeBack(s[..n]);
      var out := FeedAll(s[..n]).output;
      var b := ReadBlock(s[..n], out, s[n..]);
      assert s[..n] + s[n..] == s;
      FullBlocksAppend(out, b);
    }
  }

  lemma FullBlocksAppend(bytes: seq<Byte>, b: seq<Byte>)
    requires |bytes| % 3 == 0 && |b| == 3
    ensures FullBlocks(bytes + b) == FullBlocks(bytes) + Block(b)
  {
    hide Block;
    assert (bytes + b)[..|bytes|] == bytes && (bytes + b)[|bytes|..] == b;
  }

  lemma EncodeSplits(blocks: seq<Byte>, rest: seq<Byte>)
    requires |blocks| % 3 == 0 && |rest| <= 2
    ensures Encode(blocks + rest) == FullBlocks(blocks) + if rest == [] then "" else Block(rest)
  {
    hide FullBlocks, Block;
    var bytes := blocks + rest;
    assert |bytes| / 3 * 3 == |blocks|;
    assert bytes[..|blocks|] == blocks && bytes[|blocks|..] == rest;
  }

  lemma {:induction false} TextIsTrimmedAndPadded(t: string)
    ensures var s := TrimPadding(t);
            |s| <= |t| && t == s + seq(|t| - |s|, i => '=') && (s == "" || Last(s) != '=')
    decreases |t|
  {
    if t != "" && Last(t) == '=' {
      TextIsTrimmedAndPadded(Front(t));
      assert t == Front(t) + ['='];
    }
  }

  lemma {:induction false} FullBlocksLength(bytes: seq<Byte>)
    requires |bytes| % 3 == 0
    ensures |FullBlocks(bytes)| % 4 == 0
    decreases |bytes|
  {
    hide Block;
    if bytes != [] {
      BlockLength(bytes[|bytes| - 3..]);
      FullBlocksLength(bytes[..|bytes| - 3]);
    }
  }

  predicate Canonical(t: string) {
    && |t| % 4 == 0 && |t| - |TrimPadding(t)| <= 2
    && FeedAll(TrimPadding(t)).Bits? && FeedAll(TrimPadding(t)).buffer == 0
  }

  lemma EncodedIsCanonical(bytes: seq<Byte>)
    ensures Canonical(Encode(bytes))
  {
    hide FullBlocks, Block, Unpadded, TrimPadding, FeedAll;
    var n := |bytes| / 3 * 3;
    var blocks, rest := FullBlocks(bytes[..n]), bytes[n..];
    FullBlocksAreRead(bytes[..n]);
    FullBlocksHaveNoPadding(bytes[..n]);
    FullBlocksLength(bytes[..n]);
    if n == |bytes| {
      assert Encode(bytes) == blocks + "" == blocks;
      PaddingIsTrimmed(blocks, 0, "");
    } else {
      BlockIsPadded(rest);
      BlockIsRead(blocks, rest, bytes[..n]);
      PaddingIsTrimmed(blocks + Unpadded(rest), 3 - |rest|, seq(3 - |rest|, i => '='));
      BlockLength(rest);
      assert Encode(bytes) == blocks + Block(rest) == blocks + Unpadded(rest) + seq(3 - |rest|, i => '=');
    }
  }

  lemma BlockLength(b: seq<Byte>)
    requires 1 <= |b| <= 3
    ensures |Block(b)| == 4 && |Unpadded(b)| == |b| + 1
  {
  }

  lemma CanonicalComesBack(t: string)
    requires InAlphabet(TrimPadding(t)) && Canonical(t)
    ensures Encode(FeedAll(TrimPadding(t)).output) == t
  {
    hide FullBlocks, Block, Unpadded, TrimPadding, FeedAll, InAlphabet;
    var s := TrimPadding(t);
    TextIsTrimmedAndPadded(t);
    var p := |t| - |s|;
    var n := if p == 0 then |s| else |s| + p - 4;
    InAlphabetSplits(s, n);
    BlocksComeBack(s[..n]);
    var out := FeedAll(s[..n]).output;
    if p == 0 {
      assert s[..n] == s && t == s;
      EncodeSplits(out, []);
      assert out + [] == out && FullBlocks(out) + "" == FullBlocks(out);
    } else {
      var b := ReadBlock(s[..n], out, s[n..]);
      assert s[..n] + s[n..] == s;
      EncodeSplits(out, b);
      BlockIsPadded(b);
      assert t == s[..n] + (Unpadded(b) + seq(3 - |b|, i => '='));
    }
  }

  /**
   A text comes back from decoding and encoding if and only if it fills its last block, with at most two characters
   of padding, and the bits left over are zero.
   */
  lemma EncodeReversesDecodeOfCanonical(t: string)
    requires Decode(t).Some?
    ensures Encode(Decode(t).value) == t <==>
            |t| % 4 == 0 && |t| - |TrimPadding(t)| <= 2 && FeedAll(TrimPadding(t)).buffer == 0
  {
    RefusedIffForeign(TrimPadding(t));
    if Canonical(t) {
      CanonicalComesBack(t);
    } else {
      EncodedIsCanonical(Decode(t).value);
    }
  }

  // ----- the code -----

  lemma Thirds(n: nat)
    ensures n / 3 * 3 == n - n % 3
    ensures if (n + 1) % 3 == 0 then n % 3 == 2 else (n + 1) % 3 == n % 3 + 1
  {
  }

  /** The full blocks after one more byte. */
  lemma BlockAdded(bytes: seq<Byte>, byte: Byte)
    ensures var more := bytes + [byte]; var n := |bytes| / 3 * 3;
            FullBlocks(more[..|more| / 3 * 3]) ==
            if |more| % 3 == 0 then FullBlocks(bytes[..n]) + Block(more[|more| - 3..]) else FullBlocks(bytes[..n])
  {
    hide Block;
    var more, n := bytes + [byte], |bytes| / 3 * 3;
    Thirds(|bytes|);
    Thirds(|more|);
    if |more| % 3 == 0 {
      assert more[..|more|] == more && more[..n] == bytes[..n];
    } else {
      assert more[..n] == bytes[..n];
    }
  }

  class Base64Encoder {
    var output: string
    const buffer: array<Byte>
    var bufferLen: nat
    ghost var written: seq<Byte>

    /** The full blocks are in the output, the rest waits in the buffer. */
    ghost predicate Valid()
      reads this, buffer
    {
      && buffer.Length == 3 && bufferLen == |written| % 3
      && output == FullBlocks(written[..|written| / 3 * 3])
      && buffer[..bufferLen] == written[|written| - bufferLen..]
    }

    constructor ()
      ensures Valid() && written == [] && fresh(buffer)
    {
      output, bufferLen, written := "", 0, [];
      buffer := new Byte[3](i => 0);
    }

    method EncodeBlock()
      requires buffer.Length == 3 && bufferLen <= 3
      modifies this`output, this`bufferLen
      ensures output == old(output) + if old(bufferLen) == 0 then "" else Block(buffer[..old(bufferLen)])
      ensures bufferLen == if old(bufferLen) == 3 then 0 else old(bufferLen)
    {
      hide CharAt;
      var i0 := buffer[0] / 4;
      match bufferLen {
        case 1 =>
          var i1 := buffer[0] % 4 * 16;
          output := output + [CharAt(i0)] + [CharAt(i1)] + "=" + "=";
        case 2 =>
          var i1, i2 := buffer[0] % 4 * 16 + buffer[1] / 16, buffer[1] % 16 * 4;
          output := output + [CharAt(i0)] + [CharAt(i1)] + [CharAt(i2)] + "=";
        case 3 =>
          var i1, i2 := buffer[0] % 4 * 16 + buffer[1] / 16, buffer[1] % 16 * 4 + buffer[2] / 64;
          var i3 := buffer[2] % 64;
          output := output + [CharAt(i0)] + [CharAt(i1)] + [CharAt(i2)] + [CharAt(i3)];
          bufferLen := 0;
        case _ =>
      }
    }

    method Push(byte: Byte)
      requires Valid()
      modifies this, buffer
      ensures Valid() && written == old(written) + [byte]
    {
      hide FullBlocks, Block;
      Thirds(|written|);
      Thirds(|written| + 1);
      BlockAdded(written, byte);
      buffer[bufferLen] := byte;
      bufferLen := bufferLen + 1;
      assert buffer[..bufferLen] == (written + [byte])[|written| + 1 - bufferLen..];
      if bufferLen == 3 { EncodeBlock(); }
      written := written + [byte];
    }

    method Write(bytes: seq<Byte>)
      requires Valid()
      modifies this, buffer
      ensures Valid() && written == old(written) + bytes
    {
      hide FullBlocks, Block;
      assert old(written) + bytes[..0] == old(written);
      for i := 0 to |bytes|
        invariant Valid() && written == old(written) + bytes[..i]
      {
        Push(bytes[i]);
        assert old(written) + bytes[..i + 1] == old(written) + bytes[..i] + [bytes[i]];
      }
      assert bytes[..|bytes|] == bytes;
    }

    method Finish() returns (text: string)
      requires Valid()
      modifies this, buffer
      ensures text == Encode(old(written))
    {
      hide FullBlocks, Block;
      if bufferLen > 0 { EncodeBlock(); }
      text := output;
    }
  }

  /** The round trip of a cursor's text. */
  method EncodeText(bytes: seq<Byte>) returns (text: string)
    ensures text == Encode(bytes) && Decode(text) == Some(bytes)
  {
    hide FullBlocks, Block, Decode, Encode;
    var encoder := new Base64Encoder();
    encoder.Write(bytes);
    assert encoder.written == bytes;
    text := encoder.Finish();
    DecodeReversesEncode(bytes);
  }

  method TrimEndMatches(text: string) returns (s: string)
    ensures s == TrimPadding(text)
  {
    s := text;
    while s != "" && Last(s) == '='
      invariant TrimPadding(s) == TrimPadding(text)
      decreases |s|
    {
      s := Front(s);
    }
  }

  method DecodeText(text: string) returns (bytes: Option<seq<Byte>>)
    ensures bytes == Decode(text)
    ensures bytes.Some? <==> InAlphabet(TrimPadding(text))
    ensures bytes.Some? ==>
              var s := TrimPadding(text);
              |bytes.value| == 6 * |s| / 8 && Number(bytes.value) == Number64(s) / Pow2(6 * |s| % 8)
  {
    hide Sextet, InAlphabet, Number64, Number, FeedAll, TrimPadding;
    var s := TrimEndMatches(text);
    RefusedIffForeign(s);
    NothingFed();
    assert s[..0] == "";
    var output: seq<Byte>, buffer, collected := [], 0, 0;
    for i := 0 to |s|
      invariant FeedAll(s[..i]) == Bits(output, buffer, collected) && InAlphabet(s[..i])
    {
      FeedAppends(s[..i], s[i]);
      assert s[..i] + [s[i]] == s[..i + 1];
      ForeignStaysForeign(s, i + 1);
      var v := Sextet(s[i]);
      if v.None? { return None; }
      DecodedIsTheNumber(s[..i]);
      buffer, collected := buffer * 64 + v.value, collected + 6;
      if collected >= 8 {
        collected := collected - 8;
        var p := Pow2(collected);
        output := output + [buffer / p % 256];
        buffer := buffer % p;
      }
    }
    assert s[..|s|] == s;
    DecodedIsTheNumber(s);
    LeftOver(FeedAll(s), |s|, Number64(s));
    bytes := Some(output);
  }

  lemma ForeignStaysForeign(s: string, i: nat)
    requires i <= |s|
    ensures InAlphabet(s) ==> InAlphabet(s[..i])
    ensures i > 0 ==> (InAlphabet(s[..i]) <==> InAlphabet(s[..i - 1]) && Sextet(s[i - 1]).Some?)
  {
    if i > 0 {
      assert forall k | 0 <= k < i - 1 :: s[..i][k] == s[..i - 1][k];
      assert s[..i][i - 1] == s[i - 1];
    }
  }

  lemma NothingFed()
    ensures InAlphabet("") && FeedAll("") == Bits([], 0, 0) && FullBlocks([]) == ""
  {
  }

  lemma LeftOver(st: Bits, n: nat, value: nat)
    requires Balanced(st, n, value)
    ensures st.collected == 6 * n % 8 && |st.output| == 6 * n / 8 && Number(st.output) == value / Pow2(6 * n % 8)
  {
    PowersOfTwo();
  }
}
