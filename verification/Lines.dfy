// str.splitlines(keepends=True) and str.strip(), on which every SDP edit is built.
module Lines {

  predicate IsBreak(c: char) {
    var v := c as int;
    10 <= v <= 13 || 0x1C <= v <= 0x1E || v == 0x85 || v == 0x2028 || v == 0x2029
  }

  predicate IsSpace(c: char) {
    var v := c as int;
    || 9 <= v <= 13 || 0x1C <= v <= 0x20 || v == 0x85 || v == 0xA0 || v == 0x1680
    || 0x2000 <= v <= 0x200A || v == 0x2028 || v == 0x2029 || v == 0x202F || v == 0x205F || v == 0x3000
  }

  // The length of the first line, terminator included; "\r\n" is one terminator.
  function LineLength(s: string): (n: nat)
    requires s != ""
    ensures 1 <= n <= |s|
  {
    if IsBreak(s[0]) then (if s[0] == '\r' && |s| > 1 && s[1] == '\n' then 2 else 1)
    else if |s| == 1 then 1
    else 1 + LineLength(s[1..])
  }

  function SplitLines(s: string): seq<string> {
    if s == "" then [] else [s[..LineLength(s)]] + SplitLines(s[LineLength(s)..])
  }

  function Join(lines: seq<string>): string {
    if lines == [] then "" else lines[0] + Join(lines[1..])
  }

  function LStrip(s: string): string {
    if s != "" && IsSpace(s[0]) then LStrip(s[1..]) else s
  }

  function RStrip(s: string): string {
    if s != "" && IsSpace(s[|s| - 1]) then RStrip(s[..|s| - 1]) else s
  }

  function Strip(s: string): string { LStrip(RStrip(s)) }

  predicate EndsLine(s: string) { s != "" && IsBreak(s[|s| - 1]) }

  // A "\r" and a "\n" would join into one terminator.
  predicate Straddles(a: string, b: string) {
    a != "" && b != "" && a[|a| - 1] == '\r' && b[0] == '\n'
  }

  predicate IsLine(s: string) { s != "" && LineLength(s) == |s| }

  // The shape splitlines gives: single lines, all but the last one terminated.
  predicate AreLines(lines: seq<string>) {
    lines != [] ==> IsLine(lines[0]) && (|lines| > 1 ==> EndsLine(lines[0])) && AreLines(lines[1..])
  }

  lemma {:induction false} FirstLine(s: string)
    requires s != ""
    ensures var n := LineLength(s);
            && IsLine(s[..n]) && (n < |s| ==> EndsLine(s[..n]))
  {
    var n := LineLength(s);
    if !IsBreak(s[0]) && |s| > 1 {
      FirstLine(s[1..]);
      assert s[..n][1..] == s[1..][..n - 1];
    }
  }

  lemma {:induction false} JoinSplit(s: string)
    ensures Join(SplitLines(s)) == s && AreLines(SplitLines(s))
  {
    if s != "" {
      var n := LineLength(s);
      FirstLine(s);
      JoinSplit(s[n..]);
      JoinCons(s[..n], SplitLines(s[n..]));
      LinesCons(s[..n], SplitLines(s[n..]));
      Halves(s, n);
    }
  }

  lemma LinesCons(line: string, lines: seq<string>)
    requires IsLine(line) && AreLines(lines) && (lines != [] ==> EndsLine(line))
    ensures AreLines([line] + lines)
  {
    assert ([line] + lines)[1..] == lines;
  }

  // A terminated line keeps its length when more text follows, unless "\r" meets "\n".
  lemma {:induction false} LineThenText(line: string, rest: string)
    requires IsLine(line) && EndsLine(line)
    ensures LineLength(line + rest) == if Straddles(line, rest) then |line| + 1 else |line|
  {
    if !IsBreak(line[0]) {
      assert |line| > 1;
      assert line[1..] + rest == (line + rest)[1..];
      LineThenText(line[1..], rest);
    }
  }

  lemma SplitFirst(line: string, rest: string)
    requires IsLine(line) && EndsLine(line) && !Straddles(line, rest)
    ensures SplitLines(line + rest) == [line] + SplitLines(rest)
  {
    LineThenText(line, rest);
    assert (line + rest)[..|line|] == line && (line + rest)[|line|..] == rest;
  }

  lemma SplitStraddling(line: string, rest: string)
    requires IsLine(line) && EndsLine(line) && Straddles(line, rest)
    ensures SplitLines(line + rest) == [line + "\n"] + SplitLines(rest[1..])
  {
    LineThenText(line, rest);
    assert (line + rest)[..|line| + 1] == line + "\n" && (line + rest)[|line| + 1..] == rest[1..];
  }

  lemma SingleLine(s: string)
    requires IsLine(s)
    ensures SplitLines(s) == [s]
  {
    assert s[..|s|] == s && s[|s|..] == "";
  }

  lemma Halves(s: string, n: nat)
    requires n <= |s|
    ensures s[..n] + s[n..] == s
  {
  }

  lemma FirstLineSplitsOff(s: string)
    requires s != "" && LineLength(s) < |s|
    ensures var n := LineLength(s); IsLine(s[..n]) && EndsLine(s[..n]) && !Straddles(s[..n], s[n..])
  {
    var n := LineLength(s);
    FirstLine(s);
    LineThenText(s[..n], s[n..]);
    Halves(s, n);
  }

  lemma Regroup(a: string, b: string, n: nat)
    requires n <= |a|
    ensures a + b == a[..n] + (a[n..] + b)
  {
  }

  lemma SplitPrepend(line: string, rest: string, b: string)
    requires IsLine(line) && EndsLine(line) && rest != "" && !Straddles(line, rest)
    ensures SplitLines(line + (rest + b)) == [line] + SplitLines(rest + b)
  {
    assert (rest + b)[0] == rest[0];
    SplitFirst(line, rest + b);
  }

  lemma SplitLater(line: string, rest: string, b: string)
    requires IsLine(line) && EndsLine(line) && rest != "" && !Straddles(line, rest)
    requires SplitLines(rest + b) == SplitLines(rest) + SplitLines(b)
    ensures SplitLines(line + rest + b) == SplitLines(line + rest) + SplitLines(b)
  {
    SplitFirst(line, rest);
    SplitPrepend(line, rest, b);
    Associate(line, rest, b);
    AssociateLines([line], SplitLines(rest), SplitLines(b));
  }

  lemma AssociateLines(a: seq<string>, b: seq<string>, c: seq<string>)
    ensures (a + b) + c == a + (b + c)
  {
  }

  // Splitting distributes over concatenation at a line boundary.
  lemma {:induction false} SplitConcat(a: string, b: string)
    requires a == "" || (EndsLine(a) && !Straddles(a, b))
    ensures SplitLines(a + b) == SplitLines(a) + SplitLines(b)
  {
    if a == "" {
      assert a + b == b;
    } else if LineLength(a) == |a| {
      SplitFirst(a, b);
      SingleLine(a);
    } else {
      var n := LineLength(a);
      FirstLineSplitsOff(a);
      assert a[|a| - 1] == a[n..][|a| - n - 1];
      SplitConcat(a[n..], b);
      SplitLater(a[..n], a[n..], b);
      Halves(a, n);
    }
  }

  // ---- filtering lines ----

  // The lines whose stripped text does not satisfy p, in order.
  function Without(lines: seq<string>, p: string -> bool): seq<string> {
    if lines == [] then []
    else if p(Strip(lines[0])) then Without(lines[1..], p)
    else [lines[0]] + Without(lines[1..], p)
  }

  // The stripped texts that do satisfy p, in order.
  function Picked(lines: seq<string>, p: string -> bool): seq<string> {
    if lines == [] then []
    else if p(Strip(lines[0])) then [Strip(lines[0])] + Picked(lines[1..], p)
    else Picked(lines[1..], p)
  }

  predicate NoneSatisfy(lines: seq<string>, p: string -> bool) {
    forall l :: l in lines ==> !p(Strip(l))
  }

  lemma {:induction false} WithoutShape(lines: seq<string>, p: string -> bool)
    requires AreLines(lines)
    ensures AreLines(Without(lines, p)) && NoneSatisfy(Without(lines, p), p)
  {
    if lines != [] {
      WithoutShape(lines[1..], p);
      if !p(Strip(lines[0])) {
        assert Without(lines, p)[1..] == Without(lines[1..], p);
      }
    }
  }

  lemma {:induction false} WithoutNone(lines: seq<string>, p: string -> bool)
    requires NoneSatisfy(lines, p)
    ensures Without(lines, p) == lines && Picked(lines, p) == []
  {
    if lines != [] {
      assert lines[0] in lines;
      assert forall l :: l in lines[1..] ==> l in lines;
      WithoutNone(lines[1..], p);
    }
  }

  lemma {:induction false} WithoutConcat(a: seq<string>, b: seq<string>, p: string -> bool)
    ensures Without(a + b, p) == Without(a, p) + Without(b, p)
  {
    if a == [] {
      assert a + b == b;
    } else {
      assert (a + b)[1..] == a[1..] + b && (a + b)[0] == a[0];
      WithoutConcat(a[1..], b, p);
    }
  }

  lemma {:induction false} PickedConcat(a: seq<string>, b: seq<string>, p: string -> bool)
    ensures Picked(a + b, p) == Picked(a, p) + Picked(b, p)
  {
    if a == [] {
      assert a + b == b;
    } else {
      assert (a + b)[1..] == a[1..] + b && (a + b)[0] == a[0];
      PickedConcat(a[1..], b, p);
    }
  }

  lemma FilterConcat(a: seq<string>, b: seq<string>, p: string -> bool)
    ensures Without(a + b, p) == Without(a, p) + Without(b, p)
    ensures Picked(a + b, p) == Picked(a, p) + Picked(b, p)
  {
    WithoutConcat(a, b, p);
    PickedConcat(a, b, p);
  }

  lemma {:induction false} JoinConcat(a: seq<string>, b: seq<string>)
    ensures Join(a + b) == Join(a) + Join(b)
  {
    if a == [] {
      assert a + b == b;
    } else {
      assert (a + b)[1..] == a[1..] + b;
      JoinConcat(a[1..], b);
    }
  }

  lemma StripNewline(line: string)
    ensures Strip(line + "\n") == Strip(line)
  {
    assert (line + "\n")[..|line|] == line;
  }

  lemma NewlineLine(s: string)
    requires IsLine(s) && s[0] == '\n'
    ensures s == "\n"
  {
  }

  // Lines that lost some of their neighbours may join a "\r" to a "\n", but no line appears
  // whose text was not there before.
  lemma {:induction false} NoneAppear(lines: seq<string>, p: string -> bool)
    requires AreLines(lines) && NoneSatisfy(lines, p)
    ensures NoneSatisfy(SplitLines(Join(lines)), p)
    decreases |lines|
  {
    if |lines| == 1 {
      assert Join(lines) == lines[0] by { assert Join(lines[1..]) == ""; }
      SingleLine(lines[0]);
    } else if |lines| > 1 {
      var line, rest := lines[0], Join(lines[1..]);
      assert forall l :: l in lines[1..] ==> l in lines;
      if Straddles(line, rest) {
        NewlineLine(lines[1]);
        assert rest[1..] == Join(lines[2..]);
        assert forall l :: l in lines[2..] ==> l in lines;
        assert AreLines(lines[1..][1..]) && lines[1..][1..] == lines[2..];
        NoneAppear(lines[2..], p);
        SplitStraddling(line, rest);
        StripNewline(line);
      } else {
        NoneAppear(lines[1..], p);
        SplitFirst(line, rest);
      }
    }
  }

  // Removing lines is stable: a second pass finds nothing and changes nothing.
  lemma RemovalIsStable(s: string, p: string -> bool)
    ensures var kept := Join(Without(SplitLines(s), p));
            Join(Without(SplitLines(kept), p)) == kept && Picked(SplitLines(kept), p) == []
  {
    var lines := Without(SplitLines(s), p);
    JoinSplit(s);
    WithoutShape(SplitLines(s), p);
    NoneAppear(lines, p);
    WithoutNone(SplitLines(Join(lines)), p);
    JoinSplit(Join(lines));
  }

  lemma PickedCons(line: string, lines: seq<string>, p: string -> bool)
    ensures Picked([line] + lines, p) == (if p(Strip(line)) then [Strip(line)] else []) + Picked(lines, p)
  {
    assert ([line] + lines)[1..] == lines;
  }

  // A "\n" that joins the "\r" before it takes no text away.
  lemma PickedStraddling(line: string, rest: string, lines: seq<string>, p: string -> bool)
    requires IsLine(line) && EndsLine(line) && Straddles(line, rest) && !p("")
    requires Picked(SplitLines(rest[1..]), p) == Picked(lines, p)
    ensures Picked(SplitLines(line + rest), p) == Picked([line] + (["\n"] + lines), p)
  {
    SplitStraddling(line, rest);
    StripNewline(line);
    StripNewline("");
    assert "" + "\n" == "\n";
    PickedCons(line + "\n", SplitLines(rest[1..]), p);
    PickedCons("\n", lines, p);
    PickedCons(line, ["\n"] + lines, p);
  }

  // Joining lines keeps every text that p picks.
  lemma {:induction false} PickedOfJoin(lines: seq<string>, p: string -> bool)
    requires AreLines(lines) && !p("")
    ensures Picked(SplitLines(Join(lines)), p) == Picked(lines, p)
    decreases |lines|
  {
    if |lines| == 1 {
      assert Join(lines) == lines[0] by { assert Join(lines[1..]) == ""; }
      SingleLine(lines[0]);
    } else if |lines| > 1 {
      var line, rest := lines[0], Join(lines[1..]);
      if Straddles(line, rest) {
        NewlineLine(lines[1]);
        assert rest[1..] == Join(lines[2..]);
        assert AreLines(lines[1..][1..]) && lines[1..][1..] == lines[2..];
        PickedOfJoin(lines[2..], p);
        PickedStraddling(line, rest, lines[2..], p);
        assert lines == [line] + (["\n"] + lines[2..]);
      } else {
        PickedOfJoin(lines[1..], p);
        SplitFirst(line, rest);
        PickedCons(line, SplitLines(rest), p);
      }
    }
  }

  lemma {:induction false} PickedWithout(lines: seq<string>, p: string -> bool, q: string -> bool)
    requires forall text :: !(p(text) && q(text))
    ensures Picked(Without(lines, p), q) == Picked(lines, q)
  {
    if lines != [] {
      PickedWithout(lines[1..], p, q);
    }
  }

  // ---- cutting between lines ----

  lemma PrependLine(line: string, s: string, a: string, b: string)
    requires IsLine(line) && EndsLine(line) && !Straddles(line, s) && s == a + b
    ensures SplitLines(line + a) == [line] + SplitLines(a)
    ensures EndsLine(line + a) <==> a == "" || EndsLine(a)
    ensures Straddles(line + a, b) ==> a != "" && Straddles(a, b)
  {
    SplitFirst(line, a);
    if a == "" {
      assert line + a == line && s == b;
    }
  }

  // s falls apart between its lines k - 1 and k.
  predicate Cuts(s: string, lines: seq<string>, k: nat)
    requires k <= |lines|
  {
    var a, b := Join(lines[..k]), Join(lines[k..]);
    && s == a + b && SplitLines(a) == lines[..k] && SplitLines(b) == lines[k..]
    && !Straddles(a, b) && (b != "" ==> a == "" || EndsLine(a))
  }

  lemma ConsSlices(line: string, lines: seq<string>, k: nat)
    requires k <= |lines|
    ensures ([line] + lines)[..k + 1] == [line] + lines[..k] && ([line] + lines)[k + 1..] == lines[k..]
  {
  }

  lemma JoinCons(line: string, lines: seq<string>)
    ensures Join([line] + lines) == line + Join(lines)
  {
    assert ([line] + lines)[1..] == lines;
  }

  lemma Associate(a: string, b: string, c: string)
    ensures (a + b) + c == a + (b + c)
  {
  }

  lemma CutsLater(line: string, s: string, lines: seq<string>, k: nat)
    requires k <= |lines| && Cuts(s, lines, k)
    requires IsLine(line) && EndsLine(line) && !Straddles(line, s)
    ensures Cuts(line + s, [line] + lines, k + 1)
  {
    var a, b := Join(lines[..k]), Join(lines[k..]);
    PrependLine(line, s, a, b);
    ConsSlices(line, lines, k);
    JoinCons(line, lines[..k]);
    Associate(line, a, b);
  }

  lemma CutsNowhere(s: string)
    ensures Cuts(s, SplitLines(s), 0)
  {
    JoinSplit(s);
    assert SplitLines(s)[0..] == SplitLines(s);
  }

  lemma CutsAfterSingle(s: string)
    requires IsLine(s)
    ensures Cuts(s, [s], 1)
  {
    SingleLine(s);
    assert [s][..1] == [s] && [s][1..] == [];
    assert Join([s]) == s;
  }

  // The lines before any cut are the lines of the text before it, and likewise after it.
  lemma {:induction false} CutLines(s: string, k: nat)
    requires k <= |SplitLines(s)|
    ensures Cuts(s, SplitLines(s), k)
  {
    if k == 0 {
      CutsNowhere(s);
    } else if LineLength(s) == |s| {
      SingleLine(s);
      CutsAfterSingle(s);
    } else {
      var n := LineLength(s);
      FirstLineSplitsOff(s);
      CutLines(s[n..], k - 1);
      CutsLater(s[..n], s[n..], SplitLines(s[n..]), k - 1);
      assert s == s[..n] + s[n..];
    }
  }

  // ---- one more line ----

  predicate NoBreaks(s: string) { forall i :: 0 <= i < |s| ==> !IsBreak(s[i]) }

  predicate IsNewline(s: string) { s == "\n" || s == "\r\n" }

  lemma {:induction false} TextThenNewline(text: string, newline: string)
    requires NoBreaks(text) && IsNewline(newline)
    ensures IsLine(text + newline) && EndsLine(text + newline)
  {
    if text == "" {
      assert text + newline == newline;
    } else {
      TextThenNewline(text[1..], newline);
      assert (text + newline)[1..] == text[1..] + newline;
    }
  }

  lemma StripLine(text: string, newline: string)
    requires text != "" && !IsSpace(text[0]) && !IsSpace(text[|text| - 1]) && IsNewline(newline)
    ensures Strip(text + newline) == text
  {
    if newline == "\n" {
      StripNewline(text);
    } else {
      StripNewline(text + "\r");
      assert text + newline == text + "\r" + "\n";
      assert (text + "\r")[..|text|] == text;
      assert RStrip(text + "\r") == RStrip(text);
    }
  }

  lemma {:induction false} UnterminatedLine(s: string)
    requires IsLine(s) && !EndsLine(s)
    ensures NoBreaks(s)
  {
    if |s| > 1 && !IsBreak(s[0]) {
      UnterminatedLine(s[1..]);
      assert forall i :: 1 <= i < |s| ==> s[i] == s[1..][i - 1];
    }
  }

  predicate Glues(s: string, more: string) {
    var lines := SplitLines(s);
    && lines != [] && !EndsLine(lines[|lines| - 1])
    && SplitLines(s + more) == lines[..|lines| - 1] + [lines[|lines| - 1] + more]
  }

  lemma ConsLast(line: string, lines: seq<string>, last: string)
    requires lines != []
    ensures [line] + (lines[..|lines| - 1] + [last]) == ([line] + lines)[..|lines|] + [last]
    ensures ([line] + lines)[|lines|] == lines[|lines| - 1]
  {
  }

  lemma GluesLater(line: string, s: string, more: string)
    requires IsLine(line) && EndsLine(line) && s != "" && !Straddles(line, s) && Glues(s, more)
    ensures Glues(line + s, more)
  {
    var lines := SplitLines(s);
    SplitFirst(line, s);
    SplitPrepend(line, s, more);
    Associate(line, s, more);
    ConsLast(line, lines, lines[|lines| - 1] + more);
  }

  // Text whose last line is not terminated glues to what is appended.
  lemma {:induction false} AppendGlues(s: string, text: string, newline: string)
    requires s != "" && !EndsLine(s) && NoBreaks(text) && IsNewline(newline)
    ensures Glues(s, text + newline)
  {
    if LineLength(s) == |s| {
      UnterminatedLine(s);
      SingleLine(s);
      TextThenNewline(s + text, newline);
      assert s + text + newline == s + (text + newline);
      SingleLine(s + (text + newline));
    } else {
      var n := LineLength(s);
      FirstLineSplitsOff(s);
      assert s[|s| - 1] == s[n..][|s| - n - 1];
      AppendGlues(s[n..], text, newline);
      GluesLater(s[..n], s[n..], text + newline);
      assert s == s[..n] + s[n..];
    }
  }

  // ---- what splitting, stripping and filtering mean ----

  // Breaks only at the end of the line, where "\r\n" is one.
  predicate OneBreak(line: string) {
    forall i :: 0 <= i < |line| - 1 && IsBreak(line[i]) ==>
      i == |line| - 2 && line[i] == '\r' && line[i + 1] == '\n'
  }

  lemma {:induction false} LineHasOneBreak(s: string)
    requires IsLine(s)
    ensures OneBreak(s)
  {
    if !IsBreak(s[0]) && |s| > 1 {
      LineHasOneBreak(s[1..]);
      assert forall i :: 1 <= i < |s| ==> s[i] == s[1..][i - 1];
    }
  }

  // The lines make up the text; none is empty, each has its one break at its end, every line but
  // the last has one, and no cut falls between a "\r" and a "\n". Only one list is like that.
  lemma {:induction false} SplitExactly(s: string)
    ensures var lines := SplitLines(s);
            && Join(lines) == s
            && (forall i :: 0 <= i < |lines| ==> lines[i] != "" && OneBreak(lines[i]))
            && (forall i :: 0 <= i < |lines| - 1 ==> EndsLine(lines[i]) && !Straddles(lines[i], lines[i + 1]))
  {
    JoinSplit(s);
    if s != "" {
      var n := LineLength(s);
      FirstLine(s);
      LineHasOneBreak(s[..n]);
      SplitExactly(s[n..]);
      assert SplitLines(s) == [s[..n]] + SplitLines(s[n..]);
      if n < |s| {
        FirstLineSplitsOff(s);
        assert SplitLines(s[n..])[0][0] == s[n..][0];
      }
    }
  }

  predicate AllSpace(s: string) { forall i :: 0 <= i < |s| ==> IsSpace(s[i]) }

  predicate Trim(s: string) { s != "" ==> !IsSpace(s[0]) && !IsSpace(s[|s| - 1]) }

  // The text between leading and trailing white space, whatever it is.
  lemma {:induction false} StripIs(before: string, text: string, after: string)
    requires AllSpace(before) && AllSpace(after) && Trim(text)
    ensures Strip(before + text + after) == text
    decreases |before| + |after|
  {
    var s := before + text + after;
    if after != "" {
      assert s[|s| - 1] == after[|after| - 1] && s[..|s| - 1] == before + text + after[..|after| - 1];
      StripIs(before, text, after[..|after| - 1]);
    } else if text != "" {
      assert s[|s| - 1] == text[|text| - 1];
      assert s == before + text;
      LStripIs(before, text);
    } else {
      assert s == before;
      RStripSpace(before);
    }
  }

  lemma {:induction false} LStripIs(before: string, text: string)
    requires AllSpace(before) && (text != "" ==> !IsSpace(text[0]))
    ensures LStrip(before + text) == text
  {
    if before == "" {
      assert before + text == text;
    } else {
      assert (before + text)[1..] == before[1..] + text;
      LStripIs(before[1..], text);
    }
  }

  lemma {:induction false} RStripSpace(s: string)
    requires AllSpace(s)
    ensures RStrip(s) == ""
  {
    if s != "" {
      RStripSpace(s[..|s| - 1]);
    }
  }

  // The indices of the lines whose stripped text satisfies p.
  function Positions(lines: seq<string>, p: string -> bool): seq<nat> {
    if lines == [] then []
    else
      var n := |lines| - 1;
      Positions(lines[..n], p) + if p(Strip(lines[n])) then [n] else []
  }

  lemma {:induction false} PositionsBound(lines: seq<string>, p: string -> bool)
    ensures forall k :: k in Positions(lines, p) ==> k < |lines|
  {
    if lines != [] {
      PositionsBound(lines[..|lines| - 1], p);
    }
  }

  predicate Ascending(at: seq<nat>) { forall i, j :: 0 <= i < j < |at| ==> at[i] < at[j] }

  lemma {:induction false} PositionsAscend(lines: seq<string>, p: string -> bool)
    ensures Ascending(Positions(lines, p))
  {
    if lines != [] {
      var front := lines[..|lines| - 1];
      PositionsAscend(front, p);
      PositionsBound(front, p);
      assert forall i :: 0 <= i < |Positions(front, p)| ==> Positions(front, p)[i] in Positions(front, p);
    }
  }

  lemma {:induction false} IsPosition(lines: seq<string>, p: string -> bool, k: nat)
    requires k < |lines|
    ensures k in Positions(lines, p) <==> p(Strip(lines[k]))
  {
    var n := |lines| - 1;
    PositionsBound(lines[..n], p);
    if k < n {
      IsPosition(lines[..n], p, k);
    }
  }

  // All of them, in order.
  lemma PositionsExactly(lines: seq<string>, p: string -> bool)
    ensures var at := Positions(lines, p);
            && Ascending(at) && (forall k :: k in at ==> k < |lines|)
            && (forall k :: 0 <= k < |lines| ==> (k in at <==> p(Strip(lines[k]))))
  {
    PositionsAscend(lines, p);
    PositionsBound(lines, p);
    forall k | 0 <= k < |lines|
      ensures k in Positions(lines, p) <==> p(Strip(lines[k]))
    {
      IsPosition(lines, p, k);
    }
  }

  predicate PicksAt(lines: seq<string>, p: string -> bool, at: seq<nat>) {
    && |Picked(lines, p)| == |at|
    && (forall i :: 0 <= i < |at| ==> at[i] < |lines| && Picked(lines, p)[i] == Strip(lines[at[i]]))
  }

  // Picking goes line by line, in order.
  lemma {:induction false} PickedAt(lines: seq<string>, p: string -> bool)
    ensures PicksAt(lines, p, Positions(lines, p))
  {
    if lines != [] {
      var n := |lines| - 1;
      var front, last := lines[..n], lines[n];
      PickedAt(front, p);
      assert lines == front + [last];
      FilterConcat(front, [last], p);
      assert [last][1..] == [];
    }
  }

  predicate KeepsAt(lines: seq<string>, p: string -> bool, at: seq<nat>) {
    && |Without(lines, p)| == |at|
    && (forall i :: 0 <= i < |at| ==> at[i] < |lines| && Without(lines, p)[i] == lines[at[i]])
  }

  function LinesAt(lines: seq<string>, at: seq<nat>): seq<string>
    requires forall i :: 0 <= i < |at| ==> at[i] < |lines|
  {
    seq(|at|, i requires 0 <= i < |at| => lines[at[i]])
  }

  // And so does removing: the lines left are the others, in order.
  lemma {:induction false} KeptAt(lines: seq<string>, p: string -> bool, q: string -> bool)
    requires forall text :: q(text) <==> !p(text)
    ensures KeepsAt(lines, p, Positions(lines, q))
  {
    if lines != [] {
      var n := |lines| - 1;
      var front, last := lines[..n], lines[n];
      KeptAt(front, p, q);
      assert lines == front + [last];
      FilterConcat(front, [last], p);
      assert [last][1..] == [];
    }
  }

  // What is left after removing is these lines, joined.
  lemma RestIs(lines: seq<string>, p: string -> bool, q: string -> bool)
    requires forall text :: q(text) <==> !p(text)
    ensures var at := Positions(lines, q);
            && (forall i :: 0 <= i < |at| ==> at[i] < |lines|) && Without(lines, p) == LinesAt(lines, at)
  {
    KeptAt(lines, p, q);
  }
}
