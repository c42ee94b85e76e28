// The identity line of an SDP: inserting it, taking it out, and the fingerprints signed with it.
module Identity {
  import opened Basics
  import opened Lines

  const IDENTITY := "a=identity:"
  const FINGERPRINT := "a=fingerprint:"
  const MEDIA := "m="

  predicate IsIdentity(text: string) { IDENTITY <= text }

  predicate IsFingerprint(text: string) { FINGERPRINT <= text }

  // ---- taking the identity out ----

  function StripIdentity(sdp: string): string { Join(Without(SplitLines(sdp), IsIdentity)) }

  // `parse` reads an envelope; a malformed one gives None.
  datatype Extracted<E> = Plain(sdp: string) | Asserted(sdp: string, envelope: E) | Malformed

  function ValueOf(text: string): string
    requires IsIdentity(text)
  {
    text[|IDENTITY|..]
  }

  // The last identity line counts.
  function IdentityValue(lines: seq<string>): Option<string> {
    if lines == [] then None
    else if IdentityValue(lines[1..]).Some? then IdentityValue(lines[1..])
    else if IsIdentity(Strip(lines[0])) then Some(ValueOf(Strip(lines[0])))
    else None
  }

  function Extract<E>(sdp: string, parse: string -> Option<E>): Extracted<E> {
    match IdentityValue(SplitLines(sdp))
    case None => Plain(sdp)
    case Some(value) =>
      match parse(value)
      case None => Malformed
      case Some(envelope) => Asserted(StripIdentity(sdp), envelope)
  }

  lemma {:induction false} LastValue(lines: seq<string>, line: string)
    ensures IdentityValue(lines + [line])
            == if IsIdentity(Strip(line)) then Some(ValueOf(Strip(line))) else IdentityValue(lines)
  {
    if lines == [] {
      assert [line][1..] == [];
    } else {
      assert (lines + [line])[1..] == lines[1..] + [line];
      LastValue(lines[1..], line);
    }
  }

  lemma KeepTurn(lines: seq<string>, i: nat, kept: seq<string>)
    requires i < |lines|
    ensures kept + Without(lines[i..], IsIdentity)
            == (if IsIdentity(Strip(lines[i])) then kept else kept + [lines[i]]) + Without(lines[i + 1..], IsIdentity)
  {
    assert lines[i..][1..] == lines[i + 1..];
  }

  lemma ValueTurn(lines: seq<string>, i: nat)
    requires i < |lines|
    ensures IdentityValue(lines[..i + 1])
            == if IsIdentity(Strip(lines[i])) then Some(ValueOf(Strip(lines[i]))) else IdentityValue(lines[..i])
  {
    assert lines[..i + 1] == lines[..i] + [lines[i]];
    LastValue(lines[..i], lines[i]);
  }

  method ExtractIdentity<E>(sdp: string, parse: string -> Option<E>) returns (result: Extracted<E>)
    ensures result == Extract(sdp, parse)
  {
    var kept: seq<string> := [];
    var value: Option<string> := None;
    var lines := SplitLines(sdp);
    for i := 0 to |lines|
      invariant kept + Without(lines[i..], IsIdentity) == Without(lines, IsIdentity)
      invariant value == IdentityValue(lines[..i])
    {
      var stripped := Strip(lines[i]);
      KeepTurn(lines, i, kept);
      ValueTurn(lines, i);
      if IsIdentity(stripped) {
        value := Some(stripped[|IDENTITY|..]);
      } else {
        kept := kept + [lines[i]];
      }
    }
    assert lines[|lines|..] == [] && kept + [] == kept && lines[..|lines|] == lines;
    if value.None? {
      return Plain(sdp);
    }
    var envelope := parse(value.value);
    if envelope.None? {
      return Malformed;
    }
    return Asserted(Join(kept), envelope.value);
  }

  // ---- putting it in ----

  predicate HasCrLf(sdp: string) { exists i :: 0 <= i < |sdp| - 1 && sdp[i] == '\r' && sdp[i + 1] == '\n' }

  function Newline(sdp: string): (n: string)
    ensures IsNewline(n)
  {
    if HasCrLf(sdp) then "\r\n" else "\n"
  }

  function IdentityLine(sdp: string, envelope: string): string { IDENTITY + envelope + Newline(sdp) }

  // The index of the first line that starts with "m=", or the number of lines.
  function Media(lines: seq<string>): (k: nat)
    ensures k <= |lines|
    ensures k < |lines| ==> MEDIA <= lines[k]
    ensures forall i :: 0 <= i < k ==> !(MEDIA <= lines[i])
  {
    if lines == [] || MEDIA <= lines[0] then 0 else 1 + Media(lines[1..])
  }

  function Insert(sdp: string, envelope: string): string {
    var lines := SplitLines(sdp);
    var k := Media(lines);
    Join(lines[..k]) + (IdentityLine(sdp, envelope) + Join(lines[k..]))
  }

  lemma MediaIs(lines: seq<string>, k: nat)
    requires k <= |lines|
    requires k < |lines| ==> MEDIA <= lines[k]
    requires forall i :: 0 <= i < k ==> !(MEDIA <= lines[i])
    ensures Media(lines) == k
  {
  }

  lemma JoinInsert(before: seq<string>, line: string, after: seq<string>)
    ensures Join(before + [line] + after) == Join(before) + (line + Join(after))
  {
    JoinConcat(before + [line], after);
    JoinConcat(before, [line]);
    assert Join([line]) == line by { assert [line][1..] == []; }
    Associate(Join(before), line, Join(after));
  }

  lemma InsertTurn(lines: seq<string>, line: string, at: nat, i: nat)
    requires at <= i < |lines|
    ensures lines[..at] + [line] + lines[at..i] + [lines[i]] == lines[..at] + [line] + lines[at..i + 1]
  {
  }

  method InsertIdentity(sdp: string, envelope: string) returns (result: string)
    ensures result == Insert(sdp, envelope)
  {
    var newline := if HasCrLf(sdp) then "\r\n" else "\n";
    var out: seq<string> := [];
    var inserted := false;
    var lines := SplitLines(sdp);
    ghost var at := 0;
    for i := 0 to |lines|
      invariant 0 <= at <= i
      invariant !inserted ==> at == i && out == lines[..i]
      invariant inserted ==> out == lines[..at] + [IdentityLine(sdp, envelope)] + lines[at..i]
      invariant inserted ==> at < i && MEDIA <= lines[at]
      invariant forall j :: 0 <= j < at ==> !(MEDIA <= lines[j])
    {
      if !inserted && MEDIA <= lines[i] {
        out := out + [IDENTITY + envelope + newline];
        inserted := true;
      } else if !inserted {
        at := at + 1;
      }
      if inserted {
        InsertTurn(lines, IdentityLine(sdp, envelope), at, i);
      }
      out := out + [lines[i]];
    }
    MediaIs(lines, at);
    if !inserted {
      out := out + [IDENTITY + envelope + newline];
    }
    assert out == lines[..at] + [IdentityLine(sdp, envelope)] + lines[at..];
    JoinInsert(lines[..at], IdentityLine(sdp, envelope), lines[at..]);
    result := Join(out);
  }

  // ---- insert and extract ----

  // What base64 gives: no line break, no white space at the end.
  predicate OneLine(envelope: string) {
    NoBreaks(envelope) && (envelope != "" ==> !IsSpace(envelope[|envelope| - 1]))
  }

  // The inserted line gets a line of its own.
  predicate Placeable(sdp: string) {
    sdp == "" || EndsLine(sdp) || Media(SplitLines(sdp)) < |SplitLines(sdp)|
  }

  predicate HasNoIdentity(sdp: string) { NoneSatisfy(SplitLines(sdp), IsIdentity) }

  lemma IdentityLineShape(sdp: string, envelope: string)
    requires OneLine(envelope)
    ensures var line := IdentityLine(sdp, envelope);
            && IsLine(line) && EndsLine(line) && line[0] == 'a' && line[|line| - 1] == '\n'
            && Strip(line) == IDENTITY + envelope && IsIdentity(Strip(line))
            && ValueOf(IDENTITY + envelope) == envelope
  {
    var text := IDENTITY + envelope;
    TextThenNewline(text, Newline(sdp));
    StripLine(text, Newline(sdp));
  }

  lemma SplitAround(a: string, line: string, b: string)
    requires a == "" || EndsLine(a)
    requires IsLine(line) && EndsLine(line) && line[0] == 'a' && line[|line| - 1] == '\n'
    ensures SplitLines(a + (line + b)) == SplitLines(a) + ([line] + SplitLines(b))
  {
    assert (line + b)[0] == 'a';
    SplitConcat(a, line + b);
    SplitFirst(line, b);
  }

  // The SDP with the identity has exactly one line more, before the first media line.
  lemma InsertSplits(sdp: string, envelope: string)
    requires OneLine(envelope) && Placeable(sdp)
    ensures var lines := SplitLines(sdp);
            var k := Media(lines);
            SplitLines(Insert(sdp, envelope)) == lines[..k] + ([IdentityLine(sdp, envelope)] + lines[k..])
  {
    var lines := SplitLines(sdp);
    var k := Media(lines);
    CutLines(sdp, k);
    IdentityLineShape(sdp, envelope);
    var a, b := Join(lines[..k]), Join(lines[k..]);
    if b == "" {
      JoinSplit(b);
      assert a == sdp;
      assert SplitLines(b) == [];
    }
    SplitAround(a, IdentityLine(sdp, envelope), b);
  }

  lemma {:induction false} NoValue(lines: seq<string>)
    ensures IdentityValue(lines).None? <==> NoneSatisfy(lines, IsIdentity)
  {
    if lines != [] {
      NoValue(lines[1..]);
      assert forall line :: line in lines <==> line == lines[0] || line in lines[1..];
    }
  }

  lemma {:induction false} ValueAmong(before: seq<string>, line: string, after: seq<string>)
    requires IsIdentity(Strip(line)) && IdentityValue(after).None?
    ensures IdentityValue(before + ([line] + after)) == Some(ValueOf(Strip(line)))
  {
    if before == [] {
      assert before + ([line] + after) == [line] + after && ([line] + after)[1..] == after;
    } else {
      assert (before + ([line] + after))[1..] == before[1..] + ([line] + after);
      ValueAmong(before[1..], line, after);
    }
  }

  lemma WithoutAmong(lines: seq<string>, k: nat, line: string)
    requires k <= |lines| && IsIdentity(Strip(line))
    ensures Without(lines[..k] + ([line] + lines[k..]), IsIdentity) == Without(lines, IsIdentity)
  {
    FilterConcat(lines[..k], [line] + lines[k..], IsIdentity);
    FilterConcat(lines[..k], lines[k..], IsIdentity);
    assert ([line] + lines[k..])[1..] == lines[k..];
    assert lines[..k] + lines[k..] == lines;
  }

  // Taking the identity out again gives the lines there were, whatever their number.
  lemma StripInserted(sdp: string, envelope: string)
    requires OneLine(envelope) && Placeable(sdp)
    ensures StripIdentity(Insert(sdp, envelope)) == StripIdentity(sdp)
  {
    var lines := SplitLines(sdp);
    var k := Media(lines);
    InsertSplits(sdp, envelope);
    IdentityLineShape(sdp, envelope);
    WithoutAmong(lines, k, IdentityLine(sdp, envelope));
  }

  lemma StripOfPlain(sdp: string)
    requires HasNoIdentity(sdp)
    ensures StripIdentity(sdp) == sdp
  {
    WithoutNone(SplitLines(sdp), IsIdentity);
    JoinSplit(sdp);
  }

  lemma ExtractInserted<E>(sdp: string, envelope: string, parse: string -> Option<E>)
    requires OneLine(envelope) && Placeable(sdp) && HasNoIdentity(sdp) && parse(envelope).Some?
    ensures Extract(Insert(sdp, envelope), parse) == Asserted(sdp, parse(envelope).value)
  {
    var lines := SplitLines(sdp);
    var k := Media(lines);
    InsertSplits(sdp, envelope);
    IdentityLineShape(sdp, envelope);
    assert forall line :: line in lines[k..] ==> line in lines;
    NoValue(lines[k..]);
    ValueAmong(lines[..k], IdentityLine(sdp, envelope), lines[k..]);
    StripInserted(sdp, envelope);
    StripOfPlain(sdp);
  }

  lemma {:induction false} PickedNone(lines: seq<string>, p: string -> bool)
    requires Picked(lines, p) == []
    ensures NoneSatisfy(lines, p)
  {
    if lines != [] {
      PickedNone(lines[1..], p);
      assert forall line :: line in lines <==> line == lines[0] || line in lines[1..];
    }
  }

  lemma {:induction false} WithoutShorter(lines: seq<string>, p: string -> bool)
    ensures |Join(Without(lines, p))| <= |Join(lines)|
  {
    if lines != [] {
      WithoutShorter(lines[1..], p);
      if !p(Strip(lines[0])) {
        assert Without(lines, p)[1..] == Without(lines[1..], p);
      }
    }
  }

  lemma {:induction false} LastLine(lines: seq<string>)
    requires AreLines(lines) && lines != []
    ensures lines[|lines| - 1] != ""
    ensures Join(lines) == Join(lines[..|lines| - 1]) + lines[|lines| - 1]
  {
    var n := |lines| - 1;
    if n == 0 {
      assert Join(lines) == lines[0] + "" by { assert lines[1..] == []; }
    } else {
      LastLine(lines[1..]);
      assert lines[..n][1..] == lines[1..][..n - 1];
      Associate(lines[0], Join(lines[1..][..n - 1]), lines[n]);
    }
  }

  lemma WithoutOfSplit(lines: seq<string>, last: string)
    ensures Join(Without(lines + [last], IsIdentity))
            == Join(Without(lines, IsIdentity)) + if IsIdentity(Strip(last)) then "" else last
  {
    FilterConcat(lines, [last], IsIdentity);
    assert [last][1..] == [];
    JoinConcat(Without(lines, IsIdentity), Without([last], IsIdentity));
    assert Join([last]) == last by { assert [last][1..] == []; }
  }

  lemma JoinThenLine(sdp: string, lines: seq<string>, k: nat, line: string)
    requires lines == SplitLines(sdp) && k == |lines|
    ensures Join(lines[..k]) + (line + Join(lines[k..])) == sdp + line
  {
    JoinSplit(sdp);
    assert lines[..k] == lines && lines[k..] == [];
    assert line + "" == line;
  }

  lemma InsertAtEnd(sdp: string, envelope: string)
    requires !Placeable(sdp)
    ensures Insert(sdp, envelope) == sdp + IdentityLine(sdp, envelope)
  {
    JoinThenLine(sdp, SplitLines(sdp), Media(SplitLines(sdp)), IdentityLine(sdp, envelope));
  }

  lemma NotRestored(sdp: string, front: seq<string>, last: string, line: string)
    requires sdp == Join(front) + last && last != "" && !EndsLine(sdp) && EndsLine(line)
    ensures Join(Without(front + [last + line], IsIdentity)) != sdp
  {
    WithoutOfSplit(front, last + line);
    WithoutShorter(front, IsIdentity);
  }

  // Glued to an unterminated last line, the identity cannot be taken out again.
  lemma GluedIsNotStripped(sdp: string, envelope: string)
    requires OneLine(envelope) && !Placeable(sdp)
    ensures StripIdentity(Insert(sdp, envelope)) != sdp
  {
    var lines, line := SplitLines(sdp), IdentityLine(sdp, envelope);
    InsertAtEnd(sdp, envelope);
    AppendGlues(sdp, IDENTITY + envelope, Newline(sdp));
    JoinSplit(sdp);
    LastLine(lines);
    IdentityLineShape(sdp, envelope);
    NotRestored(sdp, lines[..|lines| - 1], lines[|lines| - 1], line);
  }

  lemma StrippedIsPlaceable(sdp: string, envelope: string)
    requires OneLine(envelope) && StripIdentity(Insert(sdp, envelope)) == sdp
    ensures HasNoIdentity(sdp) && Placeable(sdp)
  {
    if Placeable(sdp) {
      StripInserted(sdp, envelope);
      RemovalIsStable(sdp, IsIdentity);
      PickedNone(SplitLines(sdp), IsIdentity);
    } else {
      GluedIsNotStripped(sdp, envelope);
    }
  }

  // Inserting and extracting gives back the SDP byte for byte, and the envelope, exactly when the
  // SDP had no identity and the inserted line gets a line of its own.
  lemma InsertExtractExact<E>(sdp: string, envelope: string, parse: string -> Option<E>)
    requires OneLine(envelope) && parse(envelope).Some?
    ensures Extract(Insert(sdp, envelope), parse) == Asserted(sdp, parse(envelope).value)
            <==> HasNoIdentity(sdp) && Placeable(sdp)
  {
    if HasNoIdentity(sdp) && Placeable(sdp) {
      ExtractInserted(sdp, envelope, parse);
    } else if StripIdentity(Insert(sdp, envelope)) == sdp {
      StrippedIsPlaceable(sdp, envelope);
    }
  }

  // An unterminated line swallows the identity: a later extraction finds none.
  lemma GluingHappens()
    ensures !Placeable("a") && Insert("a", "x") == "aa=identity:x\n"
  {
    assert LineLength("a") == 1;
    SingleLine("a");
    var lines := SplitLines("a");
    assert lines == ["a"] && lines[1..] == [] && lines[..1] == lines;
    JoinSplit("a");
    assert !HasCrLf("a");
  }

  // ---- where the line goes, and which lines count ----

  predicate NotIdentity(text: string) { !("a=identity:" <= text) }

  // Taking the identity out leaves every other line, in order.
  lemma StripLineByLine(sdp: string)
    ensures var lines := SplitLines(sdp);
            var at := Positions(lines, NotIdentity);
            && Ascending(at) && (forall i :: 0 <= i < |at| ==> at[i] < |lines|)
            && (forall k :: 0 <= k < |lines| ==> (k in at <==> !("a=identity:" <= Strip(lines[k]))))
            && StripIdentity(sdp) == Join(LinesAt(lines, at))
  {
    var lines := SplitLines(sdp);
    PositionsExactly(lines, NotIdentity);
    RestIs(lines, IsIdentity, NotIdentity);
  }

  // The last identity line, and no other, gives the value.
  predicate LastAt(lines: seq<string>, k: nat, value: string) {
    && k < |lines| && Strip(lines[k]) == "a=identity:" + value
    && forall i :: k < i < |lines| ==> !("a=identity:" <= Strip(lines[i]))
  }

  lemma {:induction false} LastLineFound(lines: seq<string>) returns (k: nat)
    requires IdentityValue(lines).Some?
    ensures LastAt(lines, k, IdentityValue(lines).value)
  {
    if IdentityValue(lines[1..]).Some? {
      k := LastLineFound(lines[1..]);
      assert forall i :: 0 <= i < |lines| - 1 ==> lines[1..][i] == lines[i + 1];
      assert forall i :: k + 1 < i < |lines| ==> lines[i] == lines[1..][i - 1];
      k := k + 1;
    } else {
      NoValue(lines[1..]);
      k := 0;
      assert forall i :: 0 < i < |lines| ==> lines[i] in lines[1..];
      assert Strip(lines[0]) == "a=identity:" + ValueOf(Strip(lines[0]));
    }
  }

  lemma LastLineCounts(lines: seq<string>, k: nat, value: string)
    requires LastAt(lines, k, value)
    ensures IdentityValue(lines) == Some(value)
  {
    var after := lines[k + 1..];
    assert forall line :: line in after ==> exists i :: k < i < |lines| && line == lines[i];
    NoValue(after);
    ValueAmong(lines[..k], lines[k], after);
    assert lines == lines[..k] + ([lines[k]] + after);
    assert ("a=identity:" + value)[|IDENTITY|..] == value;
  }

  lemma LastIdentityCounts(lines: seq<string>, value: string)
    ensures IdentityValue(lines) == Some(value) <==> exists k: nat :: LastAt(lines, k, value)
  {
    if IdentityValue(lines) == Some(value) {
      var k := LastLineFound(lines);
    } else if k: nat :| LastAt(lines, k, value) {
      LastLineCounts(lines, k, value);
    }
  }

  // The line goes right before the first media line, or to the end, and ends as the SDP's lines do:
  // with "\r\n" if there is one anywhere, and with "\n" otherwise.
  lemma InsertedWhere(sdp: string, envelope: string) returns (k: nat)
    requires OneLine(envelope) && Placeable(sdp)
    ensures var lines := SplitLines(sdp);
            var newline := if exists i :: 0 <= i < |sdp| - 1 && sdp[i] == '\r' && sdp[i + 1] == '\n' then "\r\n" else "\n";
            && k <= |lines| && (k < |lines| ==> "m=" <= lines[k]) && (forall i :: 0 <= i < k ==> !("m=" <= lines[i]))
            && SplitLines(Insert(sdp, envelope)) == lines[..k] + (["a=identity:" + envelope + newline] + lines[k..])
  {
    InsertSplits(sdp, envelope);
    k := Media(SplitLines(sdp));
  }
}
