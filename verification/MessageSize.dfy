// Forcing a=max-message-size in an SDP: every value is replaced, or one is inserted after each
// a=sctp-port line when the SDP names none.
module MessageSize {
  import opened Lines
  import N = Numerals

  const KEY := "a=max-message-size:"
  const SCTP := "a=sctp-port:"

  // What \d matches; all that is assumed of it is that it agrees with 0-9 on ASCII.
  predicate Decimals(digit: char -> bool) {
    forall c: char :: c < 128 as char ==> (digit(c) <==> N.IsDigit(c))
  }

  function Run(s: string, digit: char -> bool): (n: nat)
    ensures n <= |s| && (n < |s| ==> !digit(s[n]))
    ensures forall i :: 0 <= i < n ==> digit(s[i])
  {
    if s != "" && digit(s[0]) then 1 + Run(s[1..], digit) else 0
  }

  predicate Matches(s: string, digit: char -> bool) { KEY <= s && |s| > |KEY| && digit(s[|KEY|]) }

  // What follows a match.
  function After(s: string, digit: char -> bool): (r: string)
    requires Matches(s, digit)
    ensures |r| < |s| && (r != "" ==> !digit(r[0]))
  {
    var rest := s[|KEY|..];
    rest[Run(rest, digit)..]
  }

  // re.sub(KEY + "\d+", KEY + value, s)
  function Sub(s: string, value: nat, digit: char -> bool): string
    decreases |s|
  {
    if s == "" then ""
    else if Matches(s, digit) then KEY + N.Decimal(value) + Sub(After(s, digit), value, digit)
    else [s[0]] + Sub(s[1..], value, digit)
  }

  predicate Contains(s: string, word: string) {
    word <= s || (s != "" && Contains(s[1..], word))
  }

  function NewlineOf(line: string): (n: string)
    ensures IsNewline(n)
  {
    if |line| >= 2 && line[|line| - 2..] == "\r\n" then "\r\n" else "\n"
  }

  function Inserted(line: string, value: nat): string { KEY + N.Decimal(value) + NewlineOf(line) }

  function Insertions(lines: seq<string>, value: nat): string {
    if lines == [] then ""
    else if SCTP <= lines[0] then lines[0] + (Inserted(lines[0], value) + Insertions(lines[1..], value))
    else lines[0] + Insertions(lines[1..], value)
  }

  function SetMax(sdp: string, value: nat, digit: char -> bool): string {
    if Contains(sdp, KEY) then Sub(sdp, value, digit) else Insertions(SplitLines(sdp), value)
  }

  // Every value the SDP gives is this one.
  predicate Settled(s: string, value: nat, digit: char -> bool)
    decreases |s|
  {
    if s == "" then true
    else if Matches(s, digit) then
      s == KEY + N.Decimal(value) + After(s, digit) && Settled(After(s, digit), value, digit)
    else Settled(s[1..], value, digit)
  }

  lemma {:induction false} InsertionsAt(lines: seq<string>, k: nat, value: nat)
    requires k < |lines|
    ensures Insertions(lines[k..], value)
            == (if SCTP <= lines[k] then lines[k] + Inserted(lines[k], value) else lines[k])
               + Insertions(lines[k + 1..], value)
  {
    assert lines[k..][1..] == lines[k + 1..];
    Associate(lines[k], Inserted(lines[k], value), Insertions(lines[k + 1..], value));
  }

  method SetMaxMessageSize(sdp: string, value: nat, digit: char -> bool) returns (result: string)
    ensures result == SetMax(sdp, value, digit)
  {
    if Contains(sdp, KEY) {
      return Sub(sdp, value, digit);
    }
    var out := "";
    var lines := SplitLines(sdp);
    for i := 0 to |lines|
      invariant out + Insertions(lines[i..], value) == Insertions(lines, value)
    {
      InsertionsAt(lines, i, value);
      ghost var was := out;
      out := out + lines[i];
      if SCTP <= lines[i] {
        var newline := if |lines[i]| >= 2 && lines[i][|lines[i]| - 2..] == "\r\n" then "\r\n" else "\n";
        Associate(was, lines[i], KEY + N.Decimal(value) + newline);
        out := out + (KEY + N.Decimal(value) + newline);
        Associate(was, lines[i] + Inserted(lines[i], value), Insertions(lines[i + 1..], value));
      } else {
        Associate(was, lines[i], Insertions(lines[i + 1..], value));
      }
    }
    assert lines[|lines|..] == [] && out + "" == out;
    return out;
  }

  // ---- replacing ----

  predicate NoDigits(s: string, digit: char -> bool) { forall i :: 0 <= i < |s| ==> !digit(s[i]) }

  lemma KeyHasNoDigits(digit: char -> bool)
    requires Decimals(digit)
    ensures NoDigits(KEY, digit)
  {
  }

  lemma DecimalDigits(value: nat, digit: char -> bool)
    requires Decimals(digit)
    ensures N.Decimal(value) != "" && forall i :: 0 <= i < |N.Decimal(value)| ==> digit(N.Decimal(value)[i])
  {
    N.DecimalRoundTrip(value);
  }

  // A run of digits ends where it is made to end.
  lemma {:induction false} RunIs(run: string, rest: string, digit: char -> bool)
    requires forall i :: 0 <= i < |run| ==> digit(run[i])
    requires rest != "" ==> !digit(rest[0])
    ensures Run(run + rest, digit) == |run|
  {
    if run == "" {
      assert run + rest == rest;
    } else {
      assert (run + rest)[1..] == run[1..] + rest;
      RunIs(run[1..], rest, digit);
    }
  }

  lemma MatchOf(value: nat, rest: string, digit: char -> bool)
    requires Decimals(digit) && (rest != "" ==> !digit(rest[0]))
    ensures var s := KEY + N.Decimal(value) + rest;
            Matches(s, digit) && After(s, digit) == rest
  {
    DecimalDigits(value, digit);
    RunIs(N.Decimal(value), rest, digit);
    var s := KEY + N.Decimal(value) + rest;
    assert s[|KEY|..] == N.Decimal(value) + rest;
    assert s[|KEY|] == N.Decimal(value)[0];
  }

  lemma Heads(a: string, b: string, c: string)
    requires b != ""
    ensures a <= a + b + c && (a + b + c)[|a|] == b[0]
  {
  }

  // Words without digits stay where they are, and digits come only where digits were.
  lemma {:induction false} WordKept(word: string, s: string, value: nat, digit: char -> bool)
    requires Decimals(digit) && NoDigits(word, digit)
    ensures word <= Sub(s, value, digit) <==> word <= s
    ensures var t := Sub(s, value, digit);
            word <= s ==> ((|t| > |word| && digit(t[|word|])) <==> (|s| > |word| && digit(s[|word|])))
    decreases |s|
  {
    var t := Sub(s, value, digit);
    KeyHasNoDigits(digit);
    if s == "" {
    } else if Matches(s, digit) {
      DecimalDigits(value, digit);
      Heads(KEY, N.Decimal(value), Sub(After(s, digit), value, digit));
      assert digit(t[|KEY|]) && digit(s[|KEY|]);
    } else if word != "" {
      assert word[1..] <= s[1..] && word[0] == s[0] <==> word <= s;
      assert t[1..] == Sub(s[1..], value, digit);
      WordKept(word[1..], s[1..], value, digit);
    }
  }

  lemma {:induction false} SubSettles(s: string, value: nat, digit: char -> bool)
    requires Decimals(digit)
    ensures Settled(Sub(s, value, digit), value, digit)
    decreases |s|
  {
    var t := Sub(s, value, digit);
    if s == "" {
    } else if Matches(s, digit) {
      var rest := After(s, digit);
      SubSettles(rest, value, digit);
      WordKept("", rest, value, digit);
      MatchOf(value, Sub(rest, value, digit), digit);
    } else {
      KeyHasNoDigits(digit);
      WordKept(KEY, s, value, digit);
      assert t[1..] == Sub(s[1..], value, digit);
      SubSettles(s[1..], value, digit);
    }
  }

  // Replacing again with another value forgets the first: nothing but the values was touched.
  lemma {:induction false} SubOfSub(s: string, value: nat, other: nat, digit: char -> bool)
    requires Decimals(digit)
    ensures Sub(Sub(s, value, digit), other, digit) == Sub(s, other, digit)
    decreases |s|
  {
    var t := Sub(s, value, digit);
    if s == "" {
    } else if Matches(s, digit) {
      var rest := After(s, digit);
      SubOfSub(rest, value, other, digit);
      WordKept("", rest, value, digit);
      MatchOf(value, Sub(rest, value, digit), digit);
    } else {
      KeyHasNoDigits(digit);
      WordKept(KEY, s, value, digit);
      assert t[1..] == Sub(s[1..], value, digit);
      SubOfSub(s[1..], value, other, digit);
    }
  }

  lemma {:induction false} SubContains(s: string, value: nat, digit: char -> bool)
    requires Decimals(digit) && Contains(s, KEY)
    ensures Contains(Sub(s, value, digit), KEY)
    decreases |s|
  {
    KeyHasNoDigits(digit);
    WordKept(KEY, s, value, digit);
    if !(KEY <= s) {
      SubContains(s[1..], value, digit);
      assert Sub(s, value, digit)[1..] == Sub(s[1..], value, digit);
    }
  }

  // ---- inserting ----

  lemma {:induction false} ContainsConcat(a: string, b: string)
    ensures Contains(a, KEY) || Contains(b, KEY) ==> Contains(a + b, KEY)
  {
    if a == "" {
      assert a + b == b;
    } else {
      assert (a + b)[1..] == a[1..] + b;
      ContainsConcat(a[1..], b);
    }
  }

  // No line break in the key, and its ":" only at its end.
  lemma KeyShape(i: nat)
    requires i < |KEY|
    ensures !IsBreak(KEY[i]) && (KEY[i] == ':' <==> i == |KEY| - 1)
  {
  }

  // No key starts inside a line that holds none, whatever follows it.
  lemma NoKeyStarts(line: string, rest: string)
    requires line != "" && !Contains(line, KEY)
    requires EndsLine(line) || rest == "" || KEY <= rest
    ensures !(KEY <= line + rest)
  {
    var n := |line|;
    if |KEY| <= n {
      assert (line + rest)[..|KEY|] == line[..|KEY|];
    } else if EndsLine(line) {
      KeyShape(n - 1);
      assert (line + rest)[n - 1] == line[n - 1];
    } else if rest != "" {
      var j := |KEY| - 1 - n;
      KeyShape(j);
      assert (line + rest)[|KEY| - 1] == rest[j] == KEY[j];
    }
  }

  lemma {:induction false} ShortLacksKey(s: string)
    requires |s| < |KEY|
    ensures !Contains(s, KEY)
  {
    if s != "" {
      ShortLacksKey(s[1..]);
    }
  }

  lemma {:induction false} SettledAfterLine(line: string, rest: string, value: nat, digit: char -> bool)
    requires !Contains(line, KEY)
    requires line == "" || EndsLine(line) || rest == "" || KEY <= rest
    ensures Settled(line + rest, value, digit) <==> Settled(rest, value, digit)
  {
    if line == "" {
      assert line + rest == rest;
    } else {
      NoKeyStarts(line, rest);
      assert (line + rest)[1..] == line[1..] + rest;
      SettledAfterLine(line[1..], rest, value, digit);
    }
  }

  lemma HeadFirst(line: string, rest: string)
    requires line != ""
    ensures [line[0]] + (line[1..] + rest) == line + rest && (line + rest)[1..] == line[1..] + rest
  {
  }

  lemma {:induction false} SubAfterLine(line: string, rest: string, value: nat, digit: char -> bool)
    requires !Contains(line, KEY)
    requires line == "" || EndsLine(line) || rest == "" || KEY <= rest
    ensures Sub(line + rest, value, digit) == line + Sub(rest, value, digit)
  {
    if line == "" {
      assert line + rest == rest && line + Sub(rest, value, digit) == Sub(rest, value, digit);
    } else {
      NoKeyStarts(line, rest);
      assert (line + rest)[1..] == line[1..] + rest;
      SubAfterLine(line[1..], rest, value, digit);
      HeadFirst(line, Sub(rest, value, digit));
    }
  }

  lemma SubAfterInsert(newline: string, rest: string, value: nat, other: nat, digit: char -> bool)
    requires Decimals(digit) && IsNewline(newline)
    ensures Sub(KEY + N.Decimal(value) + newline + rest, other, digit)
            == KEY + N.Decimal(other) + newline + Sub(rest, other, digit)
  {
    assert !digit(newline[0]);
    MatchOf(value, newline + rest, digit);
    Associate(KEY + N.Decimal(value), newline, rest);
    ShortLacksKey(newline);
    SubAfterLine(newline, rest, other, digit);
    Associate(KEY + N.Decimal(other), newline, Sub(rest, other, digit));
  }

  lemma SettledAfterInsert(newline: string, rest: string, value: nat, digit: char -> bool)
    requires Decimals(digit) && IsNewline(newline) && Settled(rest, value, digit)
    ensures Settled(KEY + N.Decimal(value) + newline + rest, value, digit)
  {
    assert !digit(newline[0]);
    MatchOf(value, newline + rest, digit);
    Associate(KEY + N.Decimal(value), newline, rest);
    ShortLacksKey(newline);
    SettledAfterLine(newline, rest, value, digit);
  }

  lemma {:induction false} JoinLacks(lines: seq<string>)
    requires !Contains(Join(lines), KEY)
    ensures forall line :: line in lines ==> !Contains(line, KEY)
  {
    if lines != [] {
      ContainsConcat(lines[0], Join(lines[1..]));
      JoinLacks(lines[1..]);
      assert forall line :: line in lines <==> line == lines[0] || line in lines[1..];
    }
  }

  predicate AnySctp(lines: seq<string>) { exists i :: 0 <= i < |lines| && SCTP <= lines[i] }

  lemma {:induction false} InsertionsSettle(lines: seq<string>, value: nat, digit: char -> bool)
    requires Decimals(digit) && AreLines(lines) && (forall line :: line in lines ==> !Contains(line, KEY))
    ensures Settled(Insertions(lines, value), value, digit)
  {
    if lines != [] {
      var line, rest := lines[0], Insertions(lines[1..], value);
      assert forall l :: l in lines[1..] ==> l in lines;
      InsertionsSettle(lines[1..], value, digit);
      if SCTP <= line {
        SettledAfterInsert(NewlineOf(line), rest, value, digit);
        assert KEY <= Inserted(line, value) + rest;
        SettledAfterLine(line, Inserted(line, value) + rest, value, digit);
      } else {
        SettledAfterLine(line, rest, value, digit);
      }
    }
  }

  lemma {:induction false} InsertionsContain(lines: seq<string>, value: nat)
    ensures AnySctp(lines) ==> Contains(Insertions(lines, value), KEY)
    ensures !AnySctp(lines) ==> Insertions(lines, value) == Join(lines)
  {
    if lines != [] {
      var line, rest := lines[0], Insertions(lines[1..], value);
      InsertionsContain(lines[1..], value);
      assert forall i :: 1 <= i < |lines| ==> lines[i] == lines[1..][i - 1];
      if SCTP <= line {
        assert KEY <= Inserted(line, value) + rest;
        ContainsConcat(line, Inserted(line, value) + rest);
      } else {
        ContainsConcat(line, rest);
        assert AnySctp(lines) ==> AnySctp(lines[1..]) by {
          if AnySctp(lines) {
            var i :| 0 <= i < |lines| && SCTP <= lines[i];
            assert lines[1..][i - 1] == lines[i];
          }
        }
      }
    }
  }

  // Afterwards every value the SDP gives is the one asked for.
  lemma SetMaxSettles(sdp: string, value: nat, digit: char -> bool)
    requires Decimals(digit)
    ensures Settled(SetMax(sdp, value, digit), value, digit)
    ensures Contains(SetMax(sdp, value, digit), KEY) <==> Contains(sdp, KEY) || AnySctp(SplitLines(sdp))
  {
    var lines := SplitLines(sdp);
    JoinSplit(sdp);
    if Contains(sdp, KEY) {
      SubSettles(sdp, value, digit);
      SubContains(sdp, value, digit);
    } else {
      JoinLacks(lines);
      InsertionsSettle(lines, value, digit);
      InsertionsContain(lines, value);
    }
  }

  // ---- whether a value is given ----

  // The SDP gives a value: somewhere the key is followed by a digit.
  predicate GivesValue(s: string, digit: char -> bool) {
    Matches(s, digit) || (s != "" && GivesValue(s[1..], digit))
  }

  lemma {:induction false} ValueHasKey(s: string, digit: char -> bool)
    requires GivesValue(s, digit)
    ensures Contains(s, KEY)
  {
    if !Matches(s, digit) {
      ValueHasKey(s[1..], digit);
    }
  }

  lemma {:induction false} SubGivesValue(s: string, value: nat, digit: char -> bool)
    requires Decimals(digit)
    ensures GivesValue(Sub(s, value, digit), digit) <==> GivesValue(s, digit)
    decreases |s|
  {
    var t := Sub(s, value, digit);
    if s == "" {
    } else if Matches(s, digit) {
      var rest := After(s, digit);
      WordKept("", rest, value, digit);
      MatchOf(value, Sub(rest, value, digit), digit);
    } else {
      KeyHasNoDigits(digit);
      WordKept(KEY, s, value, digit);
      assert t[1..] == Sub(s[1..], value, digit);
      SubGivesValue(s[1..], value, digit);
    }
  }

  lemma {:induction false} ValueAfter(a: string, b: string, digit: char -> bool)
    requires GivesValue(b, digit)
    ensures GivesValue(a + b, digit)
  {
    if a == "" {
      assert a + b == b;
    } else {
      assert (a + b)[1..] == a[1..] + b;
      ValueAfter(a[1..], b, digit);
    }
  }

  lemma {:induction false} InsertionsGiveValue(lines: seq<string>, value: nat, digit: char -> bool)
    requires Decimals(digit) && AnySctp(lines)
    ensures GivesValue(Insertions(lines, value), digit)
  {
    var line, rest := lines[0], Insertions(lines[1..], value);
    if SCTP <= line {
      assert !digit(NewlineOf(line)[0]);
      MatchOf(value, NewlineOf(line) + rest, digit);
      Associate(KEY + N.Decimal(value), NewlineOf(line), rest);
      ValueAfter(line, Inserted(line, value) + rest, digit);
    } else {
      var i :| 0 <= i < |lines| && SCTP <= lines[i];
      assert lines[1..][i - 1] == lines[i];
      InsertionsGiveValue(lines[1..], value, digit);
      ValueAfter(line, rest, digit);
    }
  }

  // A value is given afterwards exactly when one was given before, or the SDP did not name the
  // attribute at all and has an SCTP port. An attribute named without a value stays without.
  lemma SetMaxGivesValueIff(sdp: string, value: nat, digit: char -> bool)
    requires Decimals(digit)
    ensures GivesValue(SetMax(sdp, value, digit), digit)
            <==> GivesValue(sdp, digit) || (!Contains(sdp, KEY) && AnySctp(SplitLines(sdp)))
  {
    if Contains(sdp, KEY) {
      SubGivesValue(sdp, value, digit);
    } else {
      if GivesValue(sdp, digit) {
        ValueHasKey(sdp, digit);
      }
      if AnySctp(SplitLines(sdp)) {
        InsertionsGiveValue(SplitLines(sdp), value, digit);
      } else {
        InsertionsContain(SplitLines(sdp), value);
        JoinSplit(sdp);
      }
    }
  }

  // ---- whether an inserted attribute is a line of its own ----

  // Each line, and after an SCTP port line the inserted one.
  function WithInserted(lines: seq<string>, value: nat): seq<string> {
    if lines == [] then []
    else if SCTP <= lines[0] then [lines[0]] + ([Inserted(lines[0], value)] + WithInserted(lines[1..], value))
    else [lines[0]] + WithInserted(lines[1..], value)
  }

  // The text does not end inside an SCTP port line.
  predicate HasRoom(sdp: string) {
    var lines := SplitLines(sdp);
    sdp == "" || EndsLine(sdp) || (lines != [] && !(SCTP <= lines[|lines| - 1]))
  }

  lemma InsertedIsLine(line: string, value: nat)
    ensures var text := Inserted(line, value);
            IsLine(text) && EndsLine(text) && text[0] == 'a' && text[|text| - 1] == '\n'
  {
    N.DecimalRoundTrip(value);
    assert NoBreaks(KEY + N.Decimal(value));
    TextThenNewline(KEY + N.Decimal(value), NewlineOf(line));
  }

  lemma {:induction false} InsertionsStart(lines: seq<string>, value: nat)
    requires AreLines(lines) && lines != []
    ensures Insertions(lines, value) != "" && Insertions(lines, value)[0] == lines[0][0]
  {
  }

  lemma SingleInsertions(s: string, value: nat)
    ensures Insertions([s], value) == if SCTP <= s then s + Inserted(s, value) else s
    ensures WithInserted([s], value) == if SCTP <= s then [s, Inserted(s, value)] else [s]
  {
    assert [s][1..] == [] && Insertions([], value) == "" && WithInserted([], value) == [];
    assert Inserted(s, value) + "" == Inserted(s, value) && s + "" == s;
  }

  // One line only.
  lemma SingleHasRoomIff(s: string, value: nat)
    requires IsLine(s)
    ensures StandAlone([s], value) <==> HasRoom(s)
  {
    SingleLine(s);
    SingleInsertions(s, value);
    if SCTP <= s {
      if EndsLine(s) {
        InsertedIsLine(s, value);
        SplitFirst(s, Inserted(s, value));
        SingleLine(Inserted(s, value));
      } else {
        InsertedGlues(s, value);
      }
    }
  }

  lemma InsertedGlues(s: string, value: nat)
    requires IsLine(s) && !EndsLine(s)
    ensures SplitLines(s + Inserted(s, value)) == [s + Inserted(s, value)]
  {
    N.DecimalRoundTrip(value);
    SingleLine(s);
    AppendGlues(s, KEY + N.Decimal(value), NewlineOf(s));
    assert [s][..0] == [];
  }

  // A first line splits off, and with it what is inserted after it.
  lemma PlainFirst(line: string, lines: seq<string>, value: nat)
    requires IsLine(line) && EndsLine(line) && !(SCTP <= line)
    requires var more := Insertions(lines, value); more != "" && !Straddles(line, more)
    ensures SplitLines(Insertions([line] + lines, value)) == [line] + SplitLines(Insertions(lines, value))
  {
    assert ([line] + lines)[1..] == lines;
    SplitFirst(line, Insertions(lines, value));
  }

  lemma PortFirst(line: string, lines: seq<string>, value: nat)
    requires IsLine(line) && EndsLine(line) && SCTP <= line
    requires var more := Insertions(lines, value); more != "" && !Straddles(line, more)
    ensures SplitLines(Insertions([line] + lines, value))
            == [line] + [Inserted(line, value)] + SplitLines(Insertions(lines, value))
  {
    assert ([line] + lines)[1..] == lines;
    InsertedIsLine(line, value);
    FirstBefore(line, Inserted(line, value), Insertions(lines, value));
  }

  lemma SameStart(s: string, value: nat)
    requires s != ""
    ensures Insertions(SplitLines(s), value) != "" && Insertions(SplitLines(s), value)[0] == s[0]
  {
    JoinSplit(s);
    StartOfSplit(s);
    InsertionsStart(SplitLines(s), value);
  }

  lemma FirstBefore(line: string, text: string, more: string)
    requires IsLine(line) && EndsLine(line) && more != "" && !Straddles(line, more)
    requires IsLine(text) && EndsLine(text) && text[0] == 'a' && text[|text| - 1] == '\n'
    ensures SplitLines(line + more) == [line] + SplitLines(more)
    ensures SplitLines(line + (text + more)) == [line] + [text] + SplitLines(more)
  {
    SplitFirst(line, more);
    SplitFirst(text, more);
    SplitFirst(line, text + more);
    assert [line] + [text] + SplitLines(more) == [line] + ([text] + SplitLines(more));
  }

  lemma StartOfSplit(s: string)
    requires s != ""
    ensures SplitLines(s) != [] && SplitLines(s)[0] != "" && SplitLines(s)[0][0] == s[0]
  {
  }

  // The text splits into the lines there were and the inserted ones.
  predicate StandAlone(lines: seq<string>, value: nat) {
    SplitLines(Insertions(lines, value)) == WithInserted(lines, value)
  }

  lemma SameTails(head: seq<string>, a: seq<string>, b: seq<string>)
    ensures head + a == head + b <==> a == b
  {
    assert (head + a)[|head|..] == a && (head + b)[|head|..] == b;
  }

  lemma WithInsertedFirst(line: string, lines: seq<string>, value: nat)
    ensures WithInserted([line] + lines, value)
            == [line] + (if SCTP <= line then [Inserted(line, value)] else []) + WithInserted(lines, value)
  {
    assert ([line] + lines)[1..] == lines;
  }

  lemma StandAloneRest(line: string, rest: string, value: nat)
    requires IsLine(line) && EndsLine(line) && rest != "" && !Straddles(line, rest)
    ensures StandAlone([line] + SplitLines(rest), value) <==> StandAlone(SplitLines(rest), value)
  {
    var lines := SplitLines(rest);
    var after, wanted := SplitLines(Insertions(lines, value)), WithInserted(lines, value);
    SameStart(rest, value);
    WithInsertedFirst(line, lines, value);
    if SCTP <= line {
      PortFirst(line, lines, value);
      SameTails([line] + [Inserted(line, value)], after, wanted);
    } else {
      PlainFirst(line, lines, value);
      assert [line] + [] == [line];
      SameTails([line], after, wanted);
    }
  }

  lemma RoomOfRest(line: string, rest: string)
    requires IsLine(line) && EndsLine(line) && rest != "" && !Straddles(line, rest)
    ensures HasRoom(line + rest) <==> HasRoom(rest)
  {
    SplitFirst(line, rest);
    StartOfSplit(rest);
    var lines := SplitLines(rest);
    assert (line + rest)[|line + rest| - 1] == rest[|rest| - 1];
    assert ([line] + lines)[|lines|] == lines[|lines| - 1];
  }

  // Every inserted attribute is a line of its own, between the lines there were, if and only if
  // the text does not end inside an SCTP port line.
  lemma {:induction false} InsertedLinesIff(sdp: string, value: nat)
    ensures StandAlone(SplitLines(sdp), value) <==> HasRoom(sdp)
  {
    if sdp == "" {
    } else if LineLength(sdp) == |sdp| {
      SingleLine(sdp);
      SingleHasRoomIff(sdp, value);
    } else {
      var n := LineLength(sdp);
      var line, rest := sdp[..n], sdp[n..];
      FirstLineSplitsOff(sdp);
      InsertedLinesIff(rest, value);
      SplitFirst(line, rest);
      StandAloneRest(line, rest, value);
      RoomOfRest(line, rest);
      assert sdp == line + rest;
    }
  }

  lemma UnterminatedPort(s: string, value: nat)
    requires IsLine(s) && !EndsLine(s) && SCTP <= s
    ensures !HasRoom(s) && Insertions(SplitLines(s), value) == s + Inserted(s, value)
  {
    SingleLine(s);
    SingleInsertions(s, value);
  }

  // A text that ends inside the port line swallows the attribute.
  lemma GluingHappens(value: nat)
    ensures !HasRoom("a=sctp-port:5")
    ensures Insertions(SplitLines("a=sctp-port:5"), value) == "a=sctp-port:5" + (KEY + N.Decimal(value) + "\n")
  {
    NoBreaksInLine("a=sctp-port:5");
    UnterminatedPort("a=sctp-port:5", value);
  }

  lemma {:induction false} NoBreaksInLine(s: string)
    requires s != "" && NoBreaks(s)
    ensures IsLine(s) && !EndsLine(s)
  {
    if |s| > 1 {
      NoBreaksInLine(s[1..]);
    }
  }

  // An attribute named without a value is left without one.
  lemma NamedWithoutValue(value: nat, digit: char -> bool)
    ensures Contains(KEY, KEY) && !GivesValue(KEY, digit) && SetMax(KEY, value, digit) == KEY
  {
    NoValueIn(KEY, digit);
    SubOfShort(KEY, value, digit);
  }

  lemma {:induction false} NoValueIn(s: string, digit: char -> bool)
    requires |s| <= |KEY|
    ensures !GivesValue(s, digit)
  {
    if s != "" {
      NoValueIn(s[1..], digit);
    }
  }

  lemma {:induction false} SubOfShort(s: string, value: nat, digit: char -> bool)
    requires |s| <= |KEY|
    ensures Sub(s, value, digit) == s
  {
    if s != "" {
      SubOfShort(s[1..], value, digit);
    }
  }

  lemma SubOfPort(line: string, rest: string, value: nat, other: nat, digit: char -> bool)
    requires Decimals(digit) && !Contains(line, KEY)
    ensures Sub(line + (Inserted(line, value) + rest), other, digit)
            == line + (Inserted(line, other) + Sub(rest, other, digit))
  {
    SubAfterInsert(NewlineOf(line), rest, value, other, digit);
    assert KEY <= Inserted(line, value) + rest;
    SubAfterLine(line, Inserted(line, value) + rest, other, digit);
  }

  lemma {:induction false} SubOfInsertions(lines: seq<string>, value: nat, other: nat, digit: char -> bool)
    requires Decimals(digit) && AreLines(lines) && (forall line :: line in lines ==> !Contains(line, KEY))
    ensures Sub(Insertions(lines, value), other, digit) == Insertions(lines, other)
  {
    if lines != [] {
      var line, rest := lines[0], Insertions(lines[1..], value);
      assert forall l :: l in lines[1..] ==> l in lines;
      SubOfInsertions(lines[1..], value, other, digit);
      if SCTP <= line {
        SubOfPort(line, rest, value, other, digit);
      } else {
        SubAfterLine(line, rest, other, digit);
      }
    }
  }

  // The last value wins, on the replacing path and on the inserting path: the edit is idempotent,
  // and it changes nothing but that value.
  lemma LastValueWins(sdp: string, value: nat, other: nat, digit: char -> bool)
    requires Decimals(digit)
    ensures SetMax(SetMax(sdp, value, digit), other, digit) == SetMax(sdp, other, digit)
  {
    SetMaxSettles(sdp, value, digit);
    JoinSplit(sdp);
    if Contains(sdp, KEY) {
      SubOfSub(sdp, value, other, digit);
    } else {
      JoinLacks(SplitLines(sdp));
      SubOfInsertions(SplitLines(sdp), value, other, digit);
      InsertionsContain(SplitLines(sdp), value);
    }
  }

  // Nothing but a value that differs is ever touched.
  lemma {:induction false} SubOfSettled(s: string, value: nat, digit: char -> bool)
    requires Settled(s, value, digit)
    ensures Sub(s, value, digit) == s
    decreases |s|
  {
    if s != "" {
      if Matches(s, digit) {
        SubOfSettled(After(s, digit), value, digit);
      } else {
        SubOfSettled(s[1..], value, digit);
        assert s == [s[0]] + s[1..];
      }
    }
  }

  lemma {:induction false} InsertionsOfPlain(lines: seq<string>, value: nat)
    requires !AnySctp(lines)
    ensures Insertions(lines, value) == Join(lines)
  {
    if lines != [] {
      assert forall i :: 0 <= i < |lines| - 1 ==> lines[1..][i] == lines[i + 1];
      InsertionsOfPlain(lines[1..], value);
    }
  }

  // An SDP that has what it needs comes back as it was.
  lemma SettledIsFixed(sdp: string, value: nat, digit: char -> bool)
    requires Settled(sdp, value, digit) && (Contains(sdp, KEY) || !AnySctp(SplitLines(sdp)))
    ensures SetMax(sdp, value, digit) == sdp
  {
    if Contains(sdp, KEY) {
      SubOfSettled(sdp, value, digit);
    } else {
      InsertionsOfPlain(SplitLines(sdp), value);
      JoinSplit(sdp);
    }
  }

  // The inserted line ends as the port line does, when that ends with "\r\n", and with "\n" otherwise.
  lemma InsertedEndsAlike(body: string, line: string, value: nat)
    ensures Inserted(body + "\r\n", value) == "a=max-message-size:" + N.Decimal(value) + "\r\n"
    ensures (forall b :: line != b + "\r\n") ==> Inserted(line, value) == "a=max-message-size:" + N.Decimal(value) + "\n"
  {
    var crlf := body + "\r\n";
    assert crlf[|crlf| - 2..] == "\r\n";
    if |line| >= 2 && line[|line| - 2..] == "\r\n" {
      assert line == line[..|line| - 2] + "\r\n";
    }
  }
}
