// Splitting the trickled candidates off an SDP.
module SdpEdits {
  import opened Lines

  const CANDIDATE := "a=candidate:"
  const END_OF_CANDIDATES := "a=end-of-candidates"

  predicate IsCandidate(text: string) { CANDIDATE <= text }

  // The lines that do not stay in the offer or answer.
  predicate IsTrickled(text: string) { IsCandidate(text) || text == END_OF_CANDIDATES }

  // "candidate:..." for each candidate line.
  function CandidateTexts(lines: seq<string>): seq<string> {
    if lines == [] then []
    else if IsCandidate(Strip(lines[0])) then [Strip(lines[0])[2..]] + CandidateTexts(lines[1..])
    else CandidateTexts(lines[1..])
  }

  function WithoutCandidates(sdp: string): string { Join(Without(SplitLines(sdp), IsTrickled)) }

  function Candidates(sdp: string): seq<string> { CandidateTexts(SplitLines(sdp)) }

  method StripCandidates(sdp: string) returns (rest: string, candidates: seq<string>)
    ensures rest == WithoutCandidates(sdp) && candidates == Candidates(sdp)
  {
    var kept: seq<string> := [];
    candidates := [];
    var lines := SplitLines(sdp);
    for i := 0 to |lines|
      invariant kept + Without(lines[i..], IsTrickled) == Without(lines, IsTrickled)
      invariant candidates + CandidateTexts(lines[i..]) == CandidateTexts(lines)
    {
      var stripped := Strip(lines[i]);
      if CANDIDATE <= stripped {
        candidates := candidates + [stripped[2..]];
      } else if stripped != END_OF_CANDIDATES {
        kept := kept + [lines[i]];
      }
      assert lines[i..][1..] == lines[i + 1..];
    }
    assert lines[|lines|..] == [] && kept + [] == kept && candidates + [] == candidates;
    rest := Join(kept);
  }

  lemma {:induction false} TextsConcat(a: seq<string>, b: seq<string>)
    ensures CandidateTexts(a + b) == CandidateTexts(a) + CandidateTexts(b)
  {
    if a == [] {
      assert a + b == b;
    } else {
      assert (a + b)[1..] == a[1..] + b;
      TextsConcat(a[1..], b);
    }
  }

  lemma {:induction false} NoTexts(lines: seq<string>)
    requires Picked(lines, IsTrickled) == []
    ensures CandidateTexts(lines) == []
  {
    if lines != [] {
      NoTexts(lines[1..]);
    }
  }

  // Run again on its own output, the split changes nothing and finds no candidate.
  lemma StripIsStable(sdp: string)
    ensures WithoutCandidates(WithoutCandidates(sdp)) == WithoutCandidates(sdp)
    ensures Candidates(WithoutCandidates(sdp)) == []
  {
    RemovalIsStable(sdp, IsTrickled);
    NoTexts(SplitLines(WithoutCandidates(sdp)));
  }

  // The split works line by line: it distributes over any cut at a line boundary.
  lemma StripDistributes(a: string, b: string)
    requires a == "" || (EndsLine(a) && !Straddles(a, b))
    ensures WithoutCandidates(a + b) == WithoutCandidates(a) + WithoutCandidates(b)
    ensures Candidates(a + b) == Candidates(a) + Candidates(b)
  {
    SplitConcat(a, b);
    FilterConcat(SplitLines(a), SplitLines(b), IsTrickled);
    JoinConcat(Without(SplitLines(a), IsTrickled), Without(SplitLines(b), IsTrickled));
    TextsConcat(SplitLines(a), SplitLines(b));
  }

  // An SDP with no candidate and no end mark is left as it is.
  lemma StripOfPlain(sdp: string)
    requires NoneSatisfy(SplitLines(sdp), IsTrickled)
    ensures WithoutCandidates(sdp) == sdp && Candidates(sdp) == []
  {
    WithoutNone(SplitLines(sdp), IsTrickled);
    JoinSplit(sdp);
    NoTexts(SplitLines(sdp));
  }

  // ---- which lines go where ----

  // Every candidate line gives its text without "a=", in order, and no other line gives one.
  lemma CandidatesLineByLine(sdp: string)
    ensures var lines := SplitLines(sdp);
            var at := Positions(lines, IsCandidate);
            && |Candidates(sdp)| == |at| && Ascending(at)
            && (forall i :: 0 <= i < |at| ==> at[i] < |lines| && "a=" + Candidates(sdp)[i] == Strip(lines[at[i]]))
            && (forall k :: 0 <= k < |lines| ==> (k in at <==> "a=candidate:" <= Strip(lines[k])))
  {
    var lines := SplitLines(sdp);
    PositionsExactly(lines, IsCandidate);
    PickedAt(lines, IsCandidate);
    TextsOfPicked(lines);
  }

  // The lines that stay.
  predicate Stays(text: string) { !("a=candidate:" <= text) && text != "a=end-of-candidates" }

  // Every line that is neither a candidate nor the end mark stays, in order, and nothing else.
  lemma RestLineByLine(sdp: string)
    ensures var lines := SplitLines(sdp);
            var at := Positions(lines, Stays);
            && Ascending(at) && (forall i :: 0 <= i < |at| ==> at[i] < |lines|)
            && (forall k :: 0 <= k < |lines| ==> (k in at <==> Stays(Strip(lines[k]))))
            && WithoutCandidates(sdp) == Join(LinesAt(lines, at))
  {
    var lines := SplitLines(sdp);
    var at := Positions(lines, Stays);
    PositionsExactly(lines, Stays);
    KeptAt(lines, IsTrickled, Stays);
    assert Without(lines, IsTrickled) == LinesAt(lines, at);
  }

  lemma {:induction false} TextsOfPicked(lines: seq<string>)
    ensures var texts := Picked(lines, IsCandidate);
            && |CandidateTexts(lines)| == |texts|
            && (forall i :: 0 <= i < |texts| ==> "a=" + CandidateTexts(lines)[i] == texts[i])
  {
    if lines != [] {
      TextsOfPicked(lines[1..]);
      if IsCandidate(Strip(lines[0])) {
        var text := Strip(lines[0]);
        assert text[..2] == CANDIDATE[..2] == "a=";
        assert text == text[..2] + text[2..];
      }
    }
  }
}
