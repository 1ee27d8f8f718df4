/** Which texts the decoder takes for numbers, and for which (bdecoder.cpp). */
module Numbers {
  import opened Bytes
  import opened Bencode

  function PowerOfTen(n: nat): nat {
    if n == 0 then 1 else 10 * PowerOfTen(n - 1)
  }

  /** The sum of the digits at their places. */
  function PlaceValue(s: bytes): int {
    if s == [] then 0 else Place(s[0] as int - '0' as int, |s| - 1) + PlaceValue(s[1..])
  }

  function Place(d: int, n: nat): int {
    d * PowerOfTen(n)
  }

  predicate Numeral(s: bytes) {
    s != [] && forall i :: 0 <= i < |s| ==> '0' as nat <= s[i] as nat <= '9' as nat
  }

  /** The text of a number: digits, with a sign or without. */
  predicate Reads(s: bytes, n: int) {
    if s != [] && s[0] as nat == '-' as nat then Numeral(s[1..]) && n == -PlaceValue(s[1..])
    else if s != [] && s[0] as nat == '+' as nat then Numeral(s[1..]) && n == PlaceValue(s[1..])
    else Numeral(s) && n == PlaceValue(s)
  }

  lemma NextPlace(d: int, n: nat)
    ensures Place(d, n + 1) == 10 * Place(d, n) && Place(d, 0) == d
  {
  }

  lemma {:induction false} LastPlace(s: bytes)
    requires s != []
    ensures PlaceValue(s) == 10 * PlaceValue(s[..|s| - 1]) + (s[|s| - 1] as int - '0' as int)
  {
    hide Place;
    if |s| > 1 {
      LastPlace(s[1..]);
      assert s[1..][..|s| - 2] == s[..|s| - 1][1..];
      NextPlace(s[0] as int - '0' as int, |s| - 2);
    } else {
      NextPlace(s[0] as int - '0' as int, 0);
    }
  }

  lemma {:induction false} DigitsExact(s: bytes)
    ensures ParseDigits(s).Some? <==> Numeral(s)
    ensures Numeral(s) ==> PlaceValue(s) >= 0 && ParseDigits(s) == Some(PlaceValue(s))
  {
    hide Place;
    if |s| == 1 {
      LastPlace(s);
    } else if |s| > 1 && IsDigit(s[|s| - 1]) {
      var front := s[..|s| - 1];
      DigitsExact(front);
      if Numeral(front) {
        assert forall i :: 0 <= i < |s| ==> s[i] == if i < |front| then front[i] else s[|s| - 1];
        LastPlace(s);
      } else {
        var i :| 0 <= i < |front| && !IsDigit(front[i]);
        assert s[i] == front[i];
      }
    }
  }

  lemma DecimalExact(s: bytes, n: int)
    ensures ParseDecimal(s) == Some(n) <==> Reads(s, n)
  {
    hide ParseDigits, Numeral, PlaceValue;
    DigitsExact(s);
    if s != [] {
      DigitsExact(s[1..]);
    }
    assert Numeral([]) ==> false by { NothingReads(); }
  }

  lemma NothingReads()
    ensures !Numeral([])
  {
  }

  /** What lies between "i" and "e" is read exactly if it is the text of a number that fits 64 bits with a sign; and
      the kind of the value tells whether it fits 32. */
  lemma IntegerRead(data: bytes, pos: nat, s: bytes, node: Node)
    requires At(data, pos, [LOWER_I] + s + [LOWER_E]) && LOWER_E !in s
    ensures Decode(data, pos) == Done(Some(node), pos + |s| + 2)
            <==> exists n :: Reads(s, n) && -0x8000_0000_0000_0000 <= n < 0x8000_0000_0000_0000
                             && node == ValueNode(pos, |s| + 2,
                                                  if -0x8000_0000 <= n < 0x8000_0000 then Int(n) else Int64(n))
    ensures Decode(data, pos) == Fail
            <==> forall n :: Reads(s, n) ==> !(-0x8000_0000_0000_0000 <= n < 0x8000_0000_0000_0000)
  {
    hide Reads, ParseDecimal, Find;
    assert [LOWER_I] + s + [LOWER_E] == [LOWER_I] + (s + [LOWER_E]);
    AtSplit(data, pos, [LOWER_I], s + [LOWER_E]);
    AtByte(data, pos, LOWER_I);
    AtSplit(data, pos + 1, s, [LOWER_E]);
    AtByte(data, pos + 1 + |s|, LOWER_E);
    FindBehind(data, pos + 1, s, LOWER_E);
    forall n
      ensures ParseDecimal(s) == Some(n) <==> Reads(s, n)
    {
      DecimalExact(s, n);
    }
  }

  lemma {:induction false} FindBehind(data: bytes, pos: nat, s: bytes, c: byte)
    requires At(data, pos, s) && pos + |s| < |data| && data[pos + |s|] == c && c !in s
    ensures Find(data, pos, c) == pos + |s|
    decreases |s|
  {
    if s != [] {
      assert s == [s[0]] + s[1..];
      AtSplit(data, pos, [s[0]], s[1..]);
      AtByte(data, pos, s[0]);
      FindBehind(data, pos + 1, s[1..], c);
    }
  }
}
