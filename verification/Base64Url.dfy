// Unpadded base64url (section 5 of RFC 4648) as the identity code uses it: the padded encoder with
// its padding stripped, and the lenient decoder, which skips characters outside the alphabet.
module Base64Url {
  import opened Basics

  function Letter(v: nat): char
    requires v < 64
  {
    if v < 26 then ('A' as int + v) as char
    else if v < 52 then ('a' as int + v - 26) as char
    else if v < 62 then ('0' as int + v - 52) as char
    else if v == 62 then '-' else '_'
  }

  // The decoder takes both alphabets.
  function Value(c: char): (v: Option<nat>)
    ensures v.Some? ==> v.value < 64
  {
    if 'A' <= c <= 'Z' then Some(c as int - 'A' as int)
    else if 'a' <= c <= 'z' then Some(c as int - 'a' as int + 26)
    else if '0' <= c <= '9' then Some(c as int - '0' as int + 52)
    else if c == '-' || c == '+' then Some(62)
    else if c == '_' || c == '/' then Some(63)
    else None
  }

  lemma LetterValue(v: nat)
    requires v < 64
    ensures Value(Letter(v)) == Some(v) && Letter(v) != '=' && Letter(v) != '.' && Letter(v) < 128 as char
  {
  }

  // ---- encoding ----

  function First(a: nat): nat { a / 4 }
  function Second(a: nat, b: nat): nat { a % 4 * 16 + b / 16 }
  function Third(b: nat, c: nat): nat { b % 16 * 4 + c / 64 }
  function Fourth(c: nat): nat { c % 64 }

  function Quad(a: byte, b: byte, c: byte): string {
    [Letter(First(a)), Letter(Second(a, b)), Letter(Third(b, c)), Letter(Fourth(c))]
  }

  function Padded(data: bytes): string {
    if data == [] then ""
    else if |data| == 1 then Quad(data[0], 0, 0)[..2] + "=="
    else if |data| == 2 then Quad(data[0], data[1], 0)[..3] + "="
    else Quad(data[0], data[1], data[2]) + Padded(data[3..])
  }

  function StripPads(s: string): string {
    if s != "" && s[|s| - 1] == '=' then StripPads(s[..|s| - 1]) else s
  }

  function Encode(data: bytes): string { StripPads(Padded(data)) }

  // ---- decoding ----

  // `quad` characters of the current group were read, `left` holds their unused bits, and `pads`
  // padding characters followed. Enough padding ends the input.
  function Scan(text: string, quad: nat, pads: nat, left: nat): Option<bytes>
    requires quad < 4 && left < (if quad == 0 then 1 else if quad == 1 then 64 else if quad == 2 then 16 else 4)
    decreases |text|
  {
    if text == "" then (if quad == 0 then Some([]) else None)
    else if text[0] == '=' then
      if quad < 2 then Scan(text[1..], quad, pads, left)
      else if quad + pads + 1 >= 4 then Some([])
      else Scan(text[1..], quad, pads + 1, left)
    else
      match Value(text[0])
      case None => Scan(text[1..], quad, pads, left)
      case Some(v) =>
        if quad == 0 then Scan(text[1..], 1, 0, v)
        else if quad == 1 then Prepend(left * 4 + v / 16, Scan(text[1..], 2, 0, v % 16))
        else if quad == 2 then Prepend(left * 16 + v / 4, Scan(text[1..], 3, 0, v % 4))
        else Prepend(left * 64 + v, Scan(text[1..], 0, 0, 0))
  }

  function Prepend(b: byte, rest: Option<bytes>): Option<bytes> {
    match rest
    case None => None
    case Some(data) => Some([b] + data)
  }

  predicate IsAscii(s: string) { forall i :: 0 <= i < |s| ==> s[i] < 128 as char }

  // "=" * (-n % 4)
  function Padding(n: nat): string {
    if n % 4 == 0 then "" else if n % 4 == 1 then "===" else if n % 4 == 2 then "==" else "="
  }

  function Decode(text: string): Option<bytes> {
    if IsAscii(text) then Scan(text + Padding(|text|), 0, 0, 0) else None
  }

  // ---- round trip ----

  // The encoding without its padding, written directly.
  function Bare(data: bytes): string {
    if data == [] then ""
    else if |data| == 1 then Quad(data[0], 0, 0)[..2]
    else if |data| == 2 then Quad(data[0], data[1], 0)[..3]
    else Quad(data[0], data[1], data[2]) + Bare(data[3..])
  }

  // Only letters of the alphabet, so no '=', no '.', and pure ASCII.
  predicate Clean(s: string) { forall i :: 0 <= i < |s| ==> s[i] != '=' && s[i] != '.' && s[i] < 128 as char }

  lemma QuadClean(a: byte, b: byte, c: byte)
    ensures Clean(Quad(a, b, c))
  {
    LetterValue(First(a));
    LetterValue(Second(a, b));
    LetterValue(Third(b, c));
    LetterValue(Fourth(c));
  }

  lemma {:induction false} StripPadsOf(s: string, pads: string)
    requires s == "" || s[|s| - 1] != '='
    requires forall i :: 0 <= i < |pads| ==> pads[i] == '='
    ensures StripPads(s + pads) == s
  {
    if pads == "" {
      assert s + pads == s;
    } else {
      assert (s + pads)[..|s + pads| - 1] == s + pads[..|pads| - 1];
      StripPadsOf(s, pads[..|pads| - 1]);
    }
  }

  lemma {:induction false} PaddedIsBare(data: bytes)
    ensures Padded(data) == Bare(data) + Padding(|Bare(data)|) && |Bare(data)| % 4 != 1
  {
    if data == [] {
    } else if |data| == 1 {
      assert |Bare(data)| == 2;
    } else if |data| == 2 {
      assert |Bare(data)| == 3;
    } else {
      PaddedIsBare(data[3..]);
      QuadFirst(Quad(data[0], data[1], data[2]), Bare(data[3..]));
    }
  }

  lemma QuadFirst(quad: string, rest: string)
    requires |quad| == 4
    ensures quad + (rest + Padding(|rest|)) == (quad + rest) + Padding(|quad + rest|)
  {
    assert |quad + rest| % 4 == |rest| % 4;
  }

  lemma {:induction false} BareClean(data: bytes)
    ensures Clean(Bare(data))
  {
    if data != [] {
      QuadClean(data[0], if |data| > 1 then data[1] else 0, if |data| > 2 then data[2] else 0);
      if |data| > 2 {
        BareClean(data[3..]);
      }
    }
  }

  // What the encoder gives: the letters alone.
  lemma EncodeIsBare(data: bytes)
    ensures Encode(data) == Bare(data) && Clean(Encode(data))
  {
    PaddedIsBare(data);
    BareClean(data);
    StripPadsOf(Bare(data), Padding(|Bare(data)|));
  }

  lemma ScanLetter(v: nat, rest: string, quad: nat, pads: nat, left: nat)
    requires quad < 4 && left < (if quad == 0 then 1 else if quad == 1 then 64 else if quad == 2 then 16 else 4)
    requires v < 64
    ensures Scan([Letter(v)] + rest, quad, pads, left)
            == if quad == 0 then Scan(rest, 1, 0, v)
               else if quad == 1 then Prepend(left * 4 + v / 16, Scan(rest, 2, 0, v % 16))
               else if quad == 2 then Prepend(left * 16 + v / 4, Scan(rest, 3, 0, v % 4))
               else Prepend(left * 64 + v, Scan(rest, 0, 0, 0))
  {
    LetterValue(v);
    assert ([Letter(v)] + rest)[1..] == rest;
  }

  lemma Bits(a: byte, b: byte, c: byte)
    ensures First(a) < 64 && Second(a, b) < 64 && Third(b, c) < 64 && Fourth(c) < 64
    ensures First(a) * 4 + Second(a, b) / 16 == a
    ensures Second(a, b) % 16 * 16 + Third(b, c) / 4 == b
    ensures Third(b, c) % 4 * 64 + Fourth(c) == c
    ensures Third(b, 0) % 4 == 0 && Second(a, 0) % 16 == 0
  {
  }

  lemma ScanTwo(a: byte, b: byte, rest: string)
    ensures Scan([Letter(First(a))] + ([Letter(Second(a, b))] + rest), 0, 0, 0)
            == Prepend(a, Scan(rest, 2, 0, Second(a, b) % 16))
  {
    Bits(a, b, 0);
    ScanLetter(First(a), [Letter(Second(a, b))] + rest, 0, 0, 0);
    ScanLetter(Second(a, b), rest, 1, 0, First(a));
  }

  lemma ScanThird(a: byte, b: byte, c: byte, rest: string)
    ensures Scan([Letter(Third(b, c))] + rest, 2, 0, Second(a, b) % 16)
            == Prepend(b, Scan(rest, 3, 0, Third(b, c) % 4))
  {
    Bits(a, b, c);
    ScanLetter(Third(b, c), rest, 2, 0, Second(a, b) % 16);
  }

  lemma ScanFourth(b: byte, c: byte, rest: string)
    ensures Scan([Letter(Fourth(c))] + rest, 3, 0, Third(b, c) % 4) == Prepend(c, Scan(rest, 0, 0, 0))
  {
    Bits(0, b, c);
    ScanLetter(Fourth(c), rest, 3, 0, Third(b, c) % 4);
  }

  lemma ScanQuad(a: byte, b: byte, c: byte, rest: string)
    ensures Scan(Quad(a, b, c) + rest, 0, 0, 0) == Prepend(a, Prepend(b, Prepend(c, Scan(rest, 0, 0, 0))))
  {
    var fourth := [Letter(Fourth(c))] + rest;
    var third := [Letter(Third(b, c))] + fourth;
    assert Quad(a, b, c) + rest == [Letter(First(a))] + ([Letter(Second(a, b))] + third);
    ScanTwo(a, b, third);
    ScanThird(a, b, c, fourth);
    ScanFourth(b, c, rest);
  }

  lemma PadsEnd(left: nat)
    ensures left < 16 ==> Scan("==", 2, 0, left) == Some([])
    ensures left < 4 ==> Scan("=", 3, 0, left) == Some([])
  {
    assert "=="[1..] == "=";
  }

  lemma ScanOne(a: byte)
    ensures Scan(Padded([a]), 0, 0, 0) == Some([a])
  {
    assert Padded([a]) == [Letter(First(a))] + ([Letter(Second(a, 0))] + "==");
    ScanTwo(a, 0, "==");
    PadsEnd(Second(a, 0) % 16);
    assert [a] + [] == [a];
  }

  lemma ScanPair(a: byte, b: byte)
    ensures Scan(Padded([a, b]), 0, 0, 0) == Some([a, b])
  {
    var third := [Letter(Third(b, 0))] + "=";
    assert Padded([a, b]) == [Letter(First(a))] + ([Letter(Second(a, b))] + third);
    ScanTwo(a, b, third);
    ScanThird(a, b, 0, "=");
    PadsEnd(Third(b, 0) % 4);
    assert [a] + ([b] + []) == [a, b];
  }

  lemma PrependThree(a: byte, b: byte, c: byte, rest: bytes)
    ensures Prepend(a, Prepend(b, Prepend(c, Some(rest)))) == Some([a, b, c] + rest)
  {
    assert [a] + ([b] + ([c] + rest)) == [a, b, c] + rest;
  }

  lemma {:induction false} ScanPadded(data: bytes)
    ensures Scan(Padded(data), 0, 0, 0) == Some(data)
  {
    if data == [] {
    } else if |data| == 1 {
      ScanOne(data[0]);
      assert data == [data[0]];
    } else if |data| == 2 {
      ScanPair(data[0], data[1]);
      assert data == [data[0], data[1]];
    } else {
      ScanPadded(data[3..]);
      ScanQuad(data[0], data[1], data[2], Padded(data[3..]));
      PrependThree(data[0], data[1], data[2], data[3..]);
      assert [data[0], data[1], data[2]] + data[3..] == data;
    }
  }

  // Decoding what was encoded gives the data back, whatever its length.
  lemma DecodeEncode(data: bytes)
    ensures Decode(Encode(data)) == Some(data) && Clean(Encode(data))
  {
    EncodeIsBare(data);
    PaddedIsBare(data);
    ScanPadded(data);
  }

  predicate UrlSafe(c: char) { 'A' <= c <= 'Z' || 'a' <= c <= 'z' || '0' <= c <= '9' || c == '-' || c == '_' }

  predicate AllUrlSafe(s: string) { forall i :: 0 <= i < |s| ==> UrlSafe(s[i]) }

  lemma QuadUrlSafe(a: byte, b: byte, c: byte)
    ensures AllUrlSafe(Quad(a, b, c))
  {
  }

  lemma BareNext(data: bytes)
    requires |data| > 2
    ensures Bare(data) == Quad(data[0], data[1], data[2]) + Bare(data[3..])
  {
  }

  lemma {:induction false} BareUrlSafe(data: bytes)
    ensures AllUrlSafe(Bare(data))
  {
    if |data| > 2 {
      BareNext(data);
      QuadUrlSafe(data[0], data[1], data[2]);
      BareUrlSafe(data[3..]);
    } else if data != [] {
      QuadUrlSafe(data[0], if |data| > 1 then data[1] else 0, 0);
    }
  }

  lemma {:induction false} BareLength(data: bytes)
    ensures 4 * |data| <= 3 * |Bare(data)| <= 4 * |data| + 2
  {
    if |data| > 2 {
      BareNext(data);
      BareLength(data[3..]);
    } else if |data| == 2 {
      assert |Bare(data)| == 3;
    } else if |data| == 1 {
      assert |Bare(data)| == 2;
    }
  }

  // Only the letters of table 2 of RFC 4648, four for three bytes, and two or three for what is left.
  lemma EncodesUrlSafe(data: bytes)
    ensures AllUrlSafe(Encode(data))
    ensures 4 * |data| <= 3 * |Encode(data)| <= 4 * |data| + 2
  {
    EncodeIsBare(data);
    BareUrlSafe(data);
    BareLength(data);
  }

  lemma BareOfThree(a: byte, b: byte, c: byte)
    ensures Bare([a, b, c]) == Quad(a, b, c)
  {
    assert [a, b, c][3..] == [];
  }

  // The vectors of section 10 of RFC 4648, and the two letters that set this alphabet apart.
  lemma KnownEncodings()
    ensures Encode([0x66]) == "Zg" && Encode([0x66, 0x6F]) == "Zm8" && Encode([0x66, 0x6F, 0x6F]) == "Zm9v"
    ensures Encode([0xFB, 0xF0]) == "-_A"
  {
    EncodeIsBare([0x66]);
    EncodeIsBare([0x66, 0x6F]);
    EncodeIsBare([0x66, 0x6F, 0x6F]);
    BareOfThree(0x66, 0x6F, 0x6F);
    EncodeIsBare([0xFB, 0xF0]);
  }

  // What the decoder looks at.
  function Kept(text: string): string {
    if text == "" then ""
    else if Value(text[0]).Some? || text[0] == '=' then [text[0]] + Kept(text[1..])
    else Kept(text[1..])
  }

  // Characters of neither alphabet are skipped wherever they stand.
  lemma {:induction false} JunkIsSkipped(text: string, quad: nat, pads: nat, left: nat)
    requires quad < 4 && left < (if quad == 0 then 1 else if quad == 1 then 64 else if quad == 2 then 16 else 4)
    ensures Scan(text, quad, pads, left) == Scan(Kept(text), quad, pads, left)
    decreases |text|
  {
    if text != "" {
      var rest := text[1..];
      if text[0] == '=' {
        assert Kept(text)[1..] == Kept(rest);
        JunkIsSkipped(rest, quad, if quad < 2 then pads else pads + 1, left);
      } else if Value(text[0]).None? {
        JunkIsSkipped(rest, quad, pads, left);
      } else {
        assert Kept(text)[1..] == Kept(rest);
        var v := Value(text[0]).value;
        JunkIsSkipped(rest, if quad == 3 then 0 else quad + 1, 0,
                      if quad == 0 then v else if quad == 1 then v % 16 else if quad == 2 then v % 4 else 0);
      }
    }
  }

  // The standard alphabet (table 1 of RFC 4648) in place of this one.
  function Standard(text: string): string {
    seq(|text|, i requires 0 <= i < |text| =>
      if text[i] == '-' then '+' else if text[i] == '_' then '/' else text[i])
  }

  lemma StandardRest(text: string)
    requires text != ""
    ensures Standard(text)[1..] == Standard(text[1..])
  {
  }

  // The decoder reads either.
  lemma {:induction false} BothAlphabets(text: string, quad: nat, pads: nat, left: nat)
    requires quad < 4 && left < (if quad == 0 then 1 else if quad == 1 then 64 else if quad == 2 then 16 else 4)
    ensures Scan(Standard(text), quad, pads, left) == Scan(text, quad, pads, left)
    decreases |text|
  {
    if text != "" {
      StandardRest(text);
      if text[0] == '=' {
        BothAlphabets(text[1..], quad, if quad < 2 then pads else pads + 1, left);
      } else if Value(text[0]).None? {
        BothAlphabets(text[1..], quad, pads, left);
      } else {
        var v := Value(text[0]).value;
        BothAlphabets(text[1..], if quad == 3 then 0 else quad + 1, 0,
                      if quad == 0 then v else if quad == 1 then v % 16 else if quad == 2 then v % 4 else 0);
      }
    }
  }
}
