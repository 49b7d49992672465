// Hexadecimal text, census ids and the in-place removal of repeated UUIDs.

module Util {
  import opened Basics

  // ---------- Hexadecimal ----------

  const DIGITS := "0123456789abcdef"

  function HexDigit(n: nat): (c: char)
    requires n < 16
  {
    DIGITS[n]
  }

  // Both cases are accepted; None for any other character.
  function DigitValue(c: char): (r: Option<nat>)
    ensures r.Some? ==> r.value < 16
  {
    if '0' <= c <= '9' then Some(c as int - '0' as int)
    else if 'a' <= c <= 'f' then Some(c as int - 'a' as int + 10)
    else if 'A' <= c <= 'F' then Some(c as int - 'A' as int + 10)
    else None
  }

  function Hex(b: Bytes): string {
    if b == [] then "" else [HexDigit(b[0] / 16), HexDigit(b[0] % 16)] + Hex(b[1..])
  }

  // hex.DecodeString: an odd length or a foreign character is an error.
  function Unhex(s: string): Option<Bytes> {
    if s == "" then Some([])
    else if |s| == 1 then None
    else match (DigitValue(s[0]), DigitValue(s[1]), Unhex(s[2..]))
      case (Some(h), Some(l), Some(rest)) => Some([Nibbles(h, l)] + rest)
      case _ => None
  }

  function Nibbles(h: nat, l: nat): Byte
    requires h < 16 && l < 16
  {
    16 * h + l
  }

  // No x, and no slash.
  predicate Plain(s: string) {
    forall i :: 0 <= i < |s| ==> s[i] != 'x' && s[i] != 'X' && s[i] != '/'
  }

  lemma {:induction false} DigitRoundTrip(n: nat)
    requires n < 16
    ensures DigitValue(HexDigit(n)) == Some(n)
    ensures HexDigit(n) != 'x' && HexDigit(n) != 'X' && HexDigit(n) != '/'
  {
    assert DIGITS == ['0', '1', '2', '3', '4', '5', '6', '7', '8', '9', 'a', 'b', 'c', 'd', 'e', 'f'];
  }

  lemma {:induction false} HexRoundTrip(b: Bytes)
    ensures Unhex(Hex(b)) == Some(b)
    ensures Plain(Hex(b))
  {
    if b != [] {
      HexRoundTrip(b[1..]);
      DigitRoundTrip(b[0] / 16);
      DigitRoundTrip(b[0] % 16);
      var pair := [HexDigit(b[0] / 16), HexDigit(b[0] % 16)];
      assert Hex(b) == pair + Hex(b[1..]) && Hex(b)[2..] == Hex(b[1..]);
      assert b == [b[0]] + b[1..];
      assert Nibbles(b[0] / 16, b[0] % 16) == b[0];
    }
  }

  function LowerCase(c: char): char {
    if 'A' <= c <= 'F' then (c as int + 32) as char else c
  }

  lemma {:induction false} ValueRoundTrip(c: char)
    requires DigitValue(c).Some?
    ensures DigitValue(c).value < 16 && HexDigit(DigitValue(c).value) == LowerCase(c)
  {
    assert DIGITS == ['0', '1', '2', '3', '4', '5', '6', '7', '8', '9', 'a', 'b', 'c', 'd', 'e', 'f'];
  }

  // Whatever decodes is, up to letter case, the encoding of what it decodes to.
  lemma {:induction false} UnhexRoundTrip(s: string)
    requires Unhex(s).Some?
    ensures Hex(Unhex(s).value) == seq(|s|, i requires 0 <= i < |s| => LowerCase(s[i]))
    decreases |s|
  {
    if s != "" {
      UnhexRoundTrip(s[2..]);
      var h, l := DigitValue(s[0]).value, DigitValue(s[1]).value;
      ValueRoundTrip(s[0]);
      ValueRoundTrip(s[1]);
      var b := Unhex(s).value;
      assert b[0] == 16 * h + l && b[1..] == Unhex(s[2..]).value;
      assert b[0] / 16 == h && b[0] % 16 == l;
    }
  }

  predicate Prefixed(s: string) {
    |s| >= 2 && s[0] == '0' && (s[1] == 'x' || s[1] == 'X')
  }

  // The library's TrimHex: drops one leading 0x.
  function TrimHex(s: string): string {
    if Prefixed(s) then s[2..] else s
  }

  function HexPrefixed(s: string): string {
    if "0x" <= s then s else "0x" + s
  }

  // ---------- Census ids ----------

  // The parts between slashes, at least one.
  function Split(s: string): (parts: seq<string>)
    ensures parts != []
  {
    if s == "" then [""]
    else
      var rest := Split(s[1..]);
      if s[0] == '/' then [""] + rest else [[s[0]] + rest[0]] + rest[1..]
  }

  function Join(parts: seq<string>): string
    requires parts != []
  {
    if |parts| == 1 then parts[0] else parts[0] + "/" + Join(parts[1..])
  }

  predicate SlashFree(s: string) {
    forall i :: 0 <= i < |s| ==> s[i] != '/'
  }

  // Splitting cuts at every slash and loses nothing.
  lemma {:induction false} SplitJoin(s: string)
    ensures Join(Split(s)) == s
    ensures forall k :: 0 <= k < |Split(s)| ==> SlashFree(Split(s)[k])
  {
    if s != "" {
      SplitJoin(s[1..]);
      var rest := Split(s[1..]);
      assert s == [s[0]] + s[1..];
      if s[0] == '/' {
        assert ([""] + rest)[1..] == rest;
      } else {
        var parts := [[s[0]] + rest[0]] + rest[1..];
        assert parts[1..] == rest[1..];
      }
    }
  }

  lemma {:induction false} SplitWhole(s: string)
    requires SlashFree(s)
    ensures Split(s) == [s]
  {
    if s != "" {
      SplitWhole(s[1..]);
      assert [s[0]] + s[1..] == s;
    }
  }

  lemma {:induction false} SplitAt(a: string, b: string)
    requires SlashFree(a)
    ensures Split(a + "/" + b) == [a] + Split(b)
  {
    if a == "" {
      assert (a + "/" + b)[1..] == b;
    } else {
      SplitAt(a[1..], b);
      assert (a + "/" + b)[1..] == a[1..] + "/" + b;
      assert [a[0]] + a[1..] == a;
    }
  }

  // `address` is the address of the requesting key, None when it cannot be derived.
  function DecodeCensusID(id: string, address: Option<Bytes>): Option<Bytes> {
    var split := Split(id);
    if |split| == 1 then Unhex(TrimHex(split[0]))
    else if |split| == 2 then
      match Unhex(TrimHex(split[0]))
      case None => None
      case Some(input) => if address != Some(input) then None else Unhex(TrimHex(split[1]))
    else None
  }

  // The encoding of b, with or without a 0x in front.
  predicate Encodes(s: string, b: Bytes) {
    s == Hex(b) || s == "0x" + Hex(b)
  }

  lemma {:induction false} EncodedDecodes(s: string, b: Bytes)
    requires Encodes(s, b)
    ensures Unhex(TrimHex(s)) == Some(b) && SlashFree(s)
    ensures Encodes(HexPrefixed(s), b)
    ensures Unhex(TrimHex("0X" + Hex(b))) == Some(b)
  {
    HexRoundTrip(b);
    assert ("0X" + Hex(b))[2..] == Hex(b);
    if s == Hex(b) {
      assert !("0x" <= s) by {
        if |s| >= 2 { assert s[1] != 'x'; }
      }
    } else {
      assert s[2..] == Hex(b);
    }
  }

  // All accepted ways to write a census id decode to it.
  lemma {:induction false} CensusIDRoundTrip(id: Bytes, address: Bytes, part: string, prefix: string)
    requires Encodes(part, id) && Encodes(prefix, address)
    ensures DecodeCensusID(part, Some(address)) == Some(id)
    ensures DecodeCensusID(HexPrefixed(part), Some(address)) == Some(id)
    ensures DecodeCensusID(prefix + "/" + part, Some(address)) == Some(id)
  {
    EncodedDecodes(part, id);
    EncodedDecodes(prefix, address);
    EncodedDecodes(HexPrefixed(part), id);
    SplitWhole(part);
    SplitWhole(HexPrefixed(part));
    SplitAt(prefix, part);
  }

  // Without a slash the address does not matter; with one, the first part must decode to the address of the
  // requesting key.
  lemma {:induction false} AddressDecides(first: string, second: string, address: Option<Bytes>)
    requires SlashFree(first) && SlashFree(second)
    ensures DecodeCensusID(first, address) == Unhex(TrimHex(first))
    ensures DecodeCensusID(first + "/" + second, address) ==
            if address.Some? && Unhex(TrimHex(first)) == address then Unhex(TrimHex(second)) else None
  {
    SplitAt(first, second);
    SplitWhole(first);
    SplitWhole(second);
  }

  lemma {:induction false} SplitGrows(a: string, b: string)
    ensures |Split(a + "/" + b)| == |Split(a)| + |Split(b)|
  {
    if a == "" {
      assert (a + "/" + b)[1..] == b;
    } else {
      SplitGrows(a[1..], b);
      assert (a + "/" + b)[1..] == a[1..] + "/" + b;
    }
  }

  // Any id with two slashes or more is refused.
  lemma {:induction false} ManySlashesRefused(a: string, b: string, c: string, address: Option<Bytes>)
    ensures DecodeCensusID(a + "/" + b + "/" + c, address) == None
  {
    SplitGrows(a, b + "/" + c);
    SplitGrows(b, c);
    assert a + "/" + b + "/" + c == a + "/" + (b + "/" + c);
  }

  // ---------- Removing repeated UUIDs ----------

  // The first occurrences of a sequence in their order.
  function Firsts<T(==)>(s: seq<T>): seq<T> {
    if s == [] then []
    else
      var front, last := s[..|s| - 1], s[|s| - 1];
      if last in front then Firsts(front) else Firsts(front) + [last]
  }

  lemma {:induction false} FirstsSound<T>(s: seq<T>)
    ensures Distinct(Firsts(s)) && Elements(Firsts(s)) == Elements(s)
    ensures |Firsts(s)| == |Elements(s)|
  {
    if s == [] {
      assert Elements(s) == {};
    } else {
      var front, last := s[..|s| - 1], s[|s| - 1];
      FirstsSound(front);
      assert s == front + [last];
      assert Elements(s) == Elements(front) + {last};
      assert last in Elements(front) <==> last in front;
      assert last in Firsts(front) <==> last in Elements(Firsts(front));
      DistinctCardinality(Firsts(s));
    }
  }

  // Compacts the array in place; the cells after the first n are never overwritten.
  method UniqueUUIDs(list: array<Uuid>) returns (n: nat)
    modifies list
    ensures n <= list.Length && list[..n] == Firsts(old(list[..]))
    ensures Distinct(list[..n]) && Elements(list[..n]) == Elements(old(list[..])) && n == |Elements(old(list[..]))|
    ensures forall i :: n <= i < list.Length ==> list[i] == old(list[i])
  {
    var found: set<Uuid> := {};
    n := 0;
    ghost var all := list[..];
    for k := 0 to list.Length
      invariant n <= k && list[..n] == Firsts(all[..k])
      invariant found == Elements(all[..k])
      invariant forall i :: n <= i < list.Length ==> list[i] == all[i]
    {
      var element := list[k];
      assert all[..k + 1] == all[..k] + [element] && all[..k + 1][..k] == all[..k];
      if element !in found {
        list[n] := element;
        found := found + {element};
        n := n + 1;
        assert list[..n] == Firsts(all[..k]) + [element];
      }
    }
    assert all[..list.Length] == all;
    FirstsSound(all);
  }
}
