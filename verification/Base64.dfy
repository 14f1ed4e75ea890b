/** The standard base64 encoding of section 4 of RFC 4648 as Go's library decodes it: line
    breaks are skipped, padding is required, and unused trailing bits may have any value. A Go
    string is a string of byte-sized characters. */
module Base64 {
  import opened Results

  ghost predicate IsBytes(s: string) {
    forall i :: 0 <= i < |s| ==> s[i] as int < 256
  }

  function Byte(n: nat): (c: char)
    requires n < 256
    ensures c as int == n
  {
    n as char
  }

  /** The alphabet of table 1. */
  function Letter(n: nat): (c: char)
    requires n < 64
    ensures Sextet(c) == Some(n) && c != '=' && !LineBreak(c) && c as int < 256
  {
    if n < 26 then ('A' as int + n) as char
    else if n < 52 then ('a' as int + n - 26) as char
    else if n < 62 then ('0' as int + n - 52) as char
    else if n == 62 then '+' else
      '/'
  }

  function Sextet(c: char): (r: Option<nat>)
    ensures r.Some? ==> r.value < 64
  {
    if 'A' <= c <= 'Z' then Some(c as int - 'A' as int)
    else if 'a' <= c <= 'z' then Some(c as int - 'a' as int + 26)
    else if '0' <= c <= '9' then Some(c as int - '0' as int + 52)
    else if c == '+' then Some(62)
    else if c == '/' then Some(63) else
      None
  }

  predicate LineBreak(c: char) { c == '\n' || c == '\r' }

  function Letters3(v: nat): (r: string)
    requires v < 0x1000000
    ensures |r| == 4
  {
    [Letter(v / 262144), Letter(v / 4096 % 64), Letter(v / 64 % 64), Letter(v % 64)]
  }

  /** The three bytes as one number. */
  function Number(a: char, b: char, c: char): (v: nat)
    requires a as int < 256 && b as int < 256 && c as int < 256
    ensures v < 0x1000000 && v / 65536 == a as int && v / 256 % 256 == b as int && v % 256 == c as int
  {
    Digits(a as int, b as int, c as int);
    a as int * 65536 + b as int * 256 + c as int
  }

  lemma Digits(a: nat, b: nat, c: nat)
    requires a < 256 && b < 256 && c < 256
    ensures (a * 65536 + b * 256 + c) / 65536 == a && (a * 65536 + b * 256 + c) / 256 % 256 == b
    ensures (a * 65536 + b * 256 + c) % 256 == c
  {
    assert (a * 65536 + b * 256 + c) / 256 == a * 256 + b;
  }

  function Encode(s: string): (r: string)
    requires IsBytes(s)
  {
    if s == [] then []
    else if |s| == 1 then Letters3(Number(s[0], Byte(0), Byte(0)))[..2] + "=="
    else if |s| == 2 then Letters3(Number(s[0], s[1], Byte(0)))[..3] + "="
    else
      Letters3(Number(s[0], s[1], s[2])) + Encode(s[3..])
  }

  function WithoutLineBreaks(s: string): (r: string)
    ensures |r| <= |s| && forall c :: c in r <==> c in s && !LineBreak(c)
  {
    if s == [] then []
    else
      (if LineBreak(s[0]) then [] else [s[0]]) + WithoutLineBreaks(s[1..])
  }

  /** The number in a group of letters, absent if one of them is outside the alphabet. */
  function Bits(s: string): (r: Option<nat>) {
    if s == [] then Some(0)
    else
      var init, last := Bits(s[..|s| - 1]), Sextet(s[|s| - 1]);
      if init.Some? && last.Some? then Some(init.value * 64 + last.value) else None
  }

  function Group(s: string): (r: Option<string>)
    requires |s| == 4
    ensures r.Some? ==> 1 <= |r.value| <= 3 && IsBytes(r.value)
  {
    if s[2..] == "==" then
      var b := Bits(s[..2]);
      if b.Some? then Some([Byte(b.value / 16 % 256)]) else None
    else if s[3] == '=' then
      var b := Bits(s[..3]);
      if b.Some? then Some([Byte(b.value / 1024 % 256), Byte(b.value / 4 % 256)]) else None
    else
      var b := Bits(s);
      if b.Some? then Some([Byte(b.value / 65536 % 256), Byte(b.value / 256 % 256), Byte(b.value % 256)]) else None
  }

  /** Groups of four; only the last one may be padded. */
  function Groups(s: string): (r: Option<string>)
    ensures r.Some? ==> 4 * |r.value| <= 3 * |s| && IsBytes(r.value)
  {
    if s == [] then Some([])
    else if |s| < 4 then None
    else
      var first := Group(s[..4]);
      if first.None? || (|s| > 4 && |first.value| < 3) then None
      else
        var rest := Groups(s[4..]);
        if rest.None? then None else Some(first.value + rest.value)
  }

  function Decode(s: string): (r: Option<string>)
    ensures r.Some? ==> 4 * |r.value| <= 3 * |s| && IsBytes(r.value)
  {
    Groups(WithoutLineBreaks(s))
  }

  lemma BitsOf2(a: char, b: char)
    ensures Bits([a, b]) == if Sextet(a).Some? && Sextet(b).Some? then Some(Sextet(a).value * 64 + Sextet(b).value)
      else None
  {
    assert [a, b][..1] == [a] && [a][..0] == [];
    assert Bits([a]) == Sextet(a);
  }

  lemma BitsOf3(a: char, b: char, c: char)
    ensures Bits([a, b, c]) == if Bits([a, b]).Some? && Sextet(c).Some? then
      Some(Bits([a, b]).value * 64 + Sextet(c).value) else None
  {
    assert [a, b, c][..2] == [a, b];
  }

  lemma BitsOf4(a: char, b: char, c: char, d: char)
    ensures Bits([a, b, c, d]) == if Bits([a, b, c]).Some? && Sextet(d).Some? then
      Some(Bits([a, b, c]).value * 64 + Sextet(d).value) else None
  {
    assert [a, b, c, d][..3] == [a, b, c];
  }

  lemma LettersAt(v: nat)
    requires v < 0x1000000
    ensures var l := Letters3(v);
      && Sextet(l[0]) == Some(v / 262144) && Sextet(l[1]) == Some(v / 4096 % 64)
      && Sextet(l[2]) == Some(v / 64 % 64) && Sextet(l[3]) == Some(v % 64)
      && l[2] != '=' && l[3] != '='
  {
    hide Letter, Sextet;
  }

  lemma SextetsAddUp(v: nat)
    requires v < 0x1000000
    ensures v / 262144 * 64 + v / 4096 % 64 == v / 4096 && v / 4096 * 64 + v / 64 % 64 == v / 64
    ensures v / 64 * 64 + v % 64 == v
  {
  }

  lemma BitsOfLetters(v: nat)
    requires v < 0x1000000
    ensures Bits(Letters3(v)) == Some(v) && Bits(Letters3(v)[..3]) == Some(v / 64)
    ensures Bits(Letters3(v)[..2]) == Some(v / 4096)
    ensures Letters3(v)[2] != '=' && Letters3(v)[3] != '='
  {
    hide *;
    var l := Letters3(v);
    LettersAt(v);
    SextetsAddUp(v);
    BitsOf2(l[0], l[1]);
    BitsOf3(l[0], l[1], l[2]);
    BitsOf4(l[0], l[1], l[2], l[3]);
    assert l == [l[0], l[1], l[2], l[3]] && l[..3] == [l[0], l[1], l[2]] && l[..2] == [l[0], l[1]];
  }

  lemma Group3(a: char, b: char, c: char)
    requires a as int < 256 && b as int < 256 && c as int < 256
    ensures Group(Letters3(Number(a, b, c))) == Some([a, b, c])
  {
    var v := Number(a, b, c);
    BitsOfLetters(v);
    hide *;
    Unpadded(Letters3(v), v);
  }

  lemma Unpadded(l: string, v: nat)
    requires |l| == 4 && l[2] != '=' && l[3] != '=' && Bits(l) == Some(v) && v < 0x1000000
    ensures Group(l) == Some([Byte(v / 65536), Byte(v / 256 % 256), Byte(v % 256)])
  {
    hide Bits;
    assert l[2..][0] == l[2];
  }

  lemma Group2(a: char, b: char)
    requires a as int < 256 && b as int < 256
    ensures Group(Letters3(Number(a, b, Byte(0)))[..3] + "=") == Some([a, b])
  {
    var v := Number(a, b, Byte(0));
    BitsOfLetters(v);
    hide *;
    TopBytes(v);
    PaddedOnce(Letters3(v)[..3], v / 64);
  }

  lemma TopBytes(v: nat)
    requires v < 0x1000000
    ensures v / 64 / 1024 % 256 == v / 65536 && v / 64 / 4 % 256 == v / 256 % 256
  {
    assert v / 64 / 1024 == v / 65536;
    assert v / 64 / 4 == v / 256;
  }

  lemma PaddedOnce(l: string, v: nat)
    requires |l| == 3 && l[2] != '=' && Bits(l) == Some(v)
    ensures Group(l + "=") == Some([Byte(v / 1024 % 256), Byte(v / 4 % 256)])
  {
    hide Bits;
    assert (l + "=")[..3] == l && (l + "=")[2..][0] == l[2];
  }

  lemma Group1(a: char)
    requires a as int < 256
    ensures Group(Letters3(Number(a, Byte(0), Byte(0)))[..2] + "==") == Some([a])
  {
    var v := Number(a, Byte(0), Byte(0));
    BitsOfLetters(v);
    hide *;
    TopByte(v);
    PaddedTwice(Letters3(v)[..2]);
  }

  lemma TopByte(v: nat)
    requires v < 0x1000000
    ensures v / 4096 / 16 % 256 == v / 65536
  {
  }

  lemma PaddedTwice(l: string)
    requires |l| == 2
    ensures Group(l + "==") == if Bits(l).Some? then Some([Byte(Bits(l).value / 16 % 256)]) else None
  {
    hide Bits;
    assert (l + "==")[..2] == l && (l + "==")[2..] == "==";
  }

  lemma GroupsOfOne(s: string)
    requires |s| == 4
    ensures Groups(s) == Group(s)
  {
    hide Group;
    assert s[..4] == s && s[4..] == [];
    if Group(s).Some? { assert Group(s).value + [] == Group(s).value; }
  }

  /** A full group in front. */
  lemma GroupsMore(first: string, rest: string, bytes: string, more: string)
    requires |first| == 4 && Group(first) == Some(bytes) && |bytes| == 3 && Groups(rest) == Some(more)
    ensures Groups(first + rest) == Some(bytes + more)
  {
    hide Group;
    assert (first + rest)[..4] == first && (first + rest)[4..] == rest;
  }

  lemma EncodeStep(s: string)
    requires IsBytes(s) && s != []
    ensures |s| >= 3 ==> IsBytes(s[3..]) && Encode(s) == Letters3(Number(s[0], s[1], s[2])) + Encode(s[3..])
    ensures |s| == 2 ==> Encode(s) == Letters3(Number(s[0], s[1], Byte(0)))[..3] + "="
    ensures |s| == 1 ==> Encode(s) == Letters3(Number(s[0], Byte(0), Byte(0)))[..2] + "=="
  {
    hide Letters3, Number;
  }

  lemma {:induction false} GroupsOfEncode(s: string)
    requires IsBytes(s)
    ensures Groups(Encode(s)) == Some(s)
  {
    if s != [] {
      assert forall i :: 0 <= i < |s| ==> s[i] as int < 256;
      hide *;
      EncodeStep(s);
      if |s| >= 3 {
        GroupsOfEncode(s[3..]);
        Group3(s[0], s[1], s[2]);
        GroupsMore(Letters3(Number(s[0], s[1], s[2])), Encode(s[3..]), [s[0], s[1], s[2]], s[3..]);
        assert s == [s[0], s[1], s[2]] + s[3..];
      } else {
        if |s| == 2 { Group2(s[0], s[1]); } else { Group1(s[0]); }
        GroupsOfOne(Encode(s));
        assert s == if |s| == 2 then [s[0], s[1]] else [s[0]];
      }
    }
  }

  lemma {:induction false} NoLineBreaks(s: string)
    requires forall c :: c in s ==> !LineBreak(c)
    ensures WithoutLineBreaks(s) == s
  {
    if s != [] { NoLineBreaks(s[1..]); }
  }

  lemma {:induction false} EncodedLetters(s: string)
    requires IsBytes(s)
    ensures forall c :: c in Encode(s) ==> !LineBreak(c) && c as int < 256
  {
    if |s| > 2 {
      EncodedLetters(s[3..]);
    }
  }

  /** Decoding undoes encoding. */
  lemma DecodeEncode(s: string)
    requires IsBytes(s)
    ensures Decode(Encode(s)) == Some(s)
  {
    EncodedLetters(s);
    NoLineBreaks(Encode(s));
    GroupsOfEncode(s);
  }

  // Rejection

  predicate Accepted(c: char) { Sextet(c).Some? || c == '=' || LineBreak(c) }

  lemma {:induction false} BitsInAlphabet(s: string)
    ensures Bits(s).Some? ==> forall c :: c in s ==> Sextet(c).Some?
  {
    if s != [] {
      BitsInAlphabet(s[..|s| - 1]);
      assert s == s[..|s| - 1] + [s[|s| - 1]];
    }
  }

  lemma GroupInAlphabet(s: string)
    requires |s| == 4 && Group(s).Some?
    ensures forall c :: c in s ==> Sextet(c).Some? || c == '='
  {
    BitsInAlphabet(s);
    BitsInAlphabet(s[..3]);
    BitsInAlphabet(s[..2]);
    assert s == s[..2] + s[2..] && s == s[..3] + [s[3]];
    hide Bits, Sextet;
  }

  lemma {:induction false} GroupsInAlphabet(s: string)
    requires Groups(s).Some?
    ensures forall c :: c in s ==> Sextet(c).Some? || c == '='
  {
    if s != [] {
      hide Group, Sextet;
      GroupInAlphabet(s[..4]);
      GroupsInAlphabet(s[4..]);
      assert s == s[..4] + s[4..];
    }
  }

  /** A string with a character outside the alphabet, padding and line breaks is rejected. */
  lemma RejectsOthers(s: string, c: char)
    requires c in s && !Accepted(c)
    ensures Decode(s).None?
  {
    hide Sextet;
    assert c in WithoutLineBreaks(s);
    if Decode(s).Some? {
      GroupsInAlphabet(WithoutLineBreaks(s));
    }
  }

  // The letters

  /** The alphabet runs from A to Z, from a to z, from 0 to 9, and ends with + and /. */
  lemma Alphabet(n: nat)
    requires n < 64
    ensures Letter(0) == 'A' && Letter(25) == 'Z' && Letter(26) == 'a' && Letter(51) == 'z'
    ensures Letter(52) == '0' && Letter(61) == '9' && Letter(62) == '+' && Letter(63) == '/'
    ensures n !in {0, 26, 52, 62, 63} ==> Letter(n) as int == Letter(n - 1) as int + 1
  {
  }

  lemma BySixtyFour(q: nat, r: nat)
    requires r < 64
    ensures (64 * q + r) / 64 == q && (64 * q + r) % 64 == r
  {
  }

  lemma Shifts(v: nat)
    ensures v / 4096 == v / 64 / 64 && v / 262144 == v / 64 / 64 / 64
  {
  }

  lemma SixBits(a: nat, b: nat, c: nat)
    requires a < 256 && b < 256 && c < 256
    ensures var v := a * 65536 + b * 256 + c;
      && v < 0x1000000 && v / 262144 == a / 4 && v / 4096 % 64 == a % 4 * 16 + b / 16
      && v / 64 % 64 == b % 16 * 4 + c / 64 && v % 64 == c % 64
  {
    var v := a * 65536 + b * 256 + c;
    var a1, a0, b1, b0, c1, c0 := a / 4, a % 4, b / 16, b % 16, c / 64, c % 64;
    assert a == 4 * a1 + a0 && b == 16 * b1 + b0 && c == 64 * c1 + c0;
    assert a0 < 4 && b1 < 16 && b0 < 16 && c1 < 4 && c0 < 64;
    Shifts(v);
    BySixtyFour(a * 1024 + b * 4 + c1, c0);
    assert v / 64 == 64 * (a * 16 + b1) + (b0 * 4 + c1);
    BySixtyFour(a * 16 + b1, b0 * 4 + c1);
    assert v / 64 / 64 == 64 * a1 + (a0 * 16 + b1);
    BySixtyFour(a1, a0 * 16 + b1);
  }

  lemma GroupLetters(a: char, b: char, c: char)
    requires a as int < 256 && b as int < 256 && c as int < 256
    ensures Letters3(Number(a, b, c)) == [
        Letter(a as int / 4), Letter(a as int % 4 * 16 + b as int / 16),
        Letter(b as int % 16 * 4 + c as int / 64), Letter(c as int % 64)]
  {
    hide Letter;
    SixBits(a as int, b as int, c as int);
    var v := a as int * 65536 + b as int * 256 + c as int;
    assert Number(a, b, c) == v;
  }

  /** Three bytes make four letters of six bits each, from the highest bits on. */
  lemma EncodeGroup(s: string)
    requires IsBytes(s) && |s| >= 3
    ensures var a, b, c := s[0] as int, s[1] as int, s[2] as int;
      && a < 256 && b < 256 && c < 256 && IsBytes(s[3..])
      && Encode(s) == [Letter(a / 4), Letter(a % 4 * 16 + b / 16), Letter(b % 16 * 4 + c / 64), Letter(c % 64)]
        + Encode(s[3..])
  {
    assert s[0] as int < 256 && s[1] as int < 256 && s[2] as int < 256;
    hide *;
    EncodeStep(s);
    GroupLetters(s[0], s[1], s[2]);
  }

  /** A last group of one or two bytes is filled up with zero bits and padding. */
  lemma EncodeEnd(a: char, b: char)
    requires a as int < 256 && b as int < 256
    ensures IsBytes([a]) && IsBytes([a, b])
    ensures Encode([a]) == [Letter(a as int / 4), Letter(a as int % 4 * 16), '=', '=']
    ensures Encode([a, b]) == [
        Letter(a as int / 4), Letter(a as int % 4 * 16 + b as int / 16), Letter(b as int % 16 * 4), '=']
  {
    assert IsBytes([a]) && IsBytes([a, b]);
    assert Byte(0) as int == 0;
    hide *;
    EncodeStep([a]);
    EncodeStep([a, b]);
    GroupLetters(a, Byte(0), Byte(0));
    GroupLetters(a, b, Byte(0));
  }
}
