// The signaling message codec: "<IDENTIFIER> <connectionId> <data>".
module Signaling {
  import opened Basics
  import opened Numerals

  datatype Message =
    | ConnectRequest(id: nat, sdp: string)
    | ConnectResponse(id: nat, sdp: string)
    | CandidateAdd(id: nat, candidate: string)
    | ConnectError(id: nat, error: int)

  function Identifier(m: Message): string {
    match m
    case ConnectRequest(_, _) => "CONNECTREQUEST"
    case ConnectResponse(_, _) => "CONNECTRESPONSE"
    case CandidateAdd(_, _) => "CANDIDATEADD"
    case ConnectError(_, _) => "CONNECTERROR"
  }

  function Data(m: Message): string {
    match m
    case ConnectRequest(_, sdp) => sdp
    case ConnectResponse(_, sdp) => sdp
    case CandidateAdd(_, candidate) => candidate
    case ConnectError(_, error) => SignedDecimal(error)
  }

  function Serialize(m: Message): string {
    Identifier(m) + " " + Decimal(m.id) + " " + Data(m)
  }

  // str.find(c, from): the first index at or after `from`, or |s| when there is none.
  function Find(s: string, c: char, from: nat): (i: nat)
    requires from <= |s|
    ensures from <= i <= |s|
    ensures forall k :: from <= k < i ==> s[k] != c
    ensures i < |s| ==> s[i] == c
    decreases |s| - from
  {
    if from == |s| || s[from] == c then from else Find(s, c, from + 1)
  }

  datatype Tokens = Tokens(identifier: string, connection: string, data: string)

  function Tokenize(s: string): Option<Tokens> {
    var first := Find(s, ' ', 0);
    if first == |s| then None
    else
      var second := Find(s, ' ', first + 1);
      if second == |s| then None
      else Some(Tokens(s[..first], s[first + 1..second], s[second + 1..]))
  }

  function ParseU64(token: string): Option<nat> {
    if token == "" || !AllDigits(token) then None
    else if DecimalValue(token) <= U64_MAX then Some(DecimalValue(token)) else None
  }

  function Body(token: string): string {
    if token != "" && token[0] == '-' then token[1..] else token
  }

  function ParseInt(token: string): Option<int> {
    if Body(token) == "" || !AllDigits(Body(token)) then None
    else
      var magnitude: int := DecimalValue(Body(token));
      Some(if token[0] == '-' then -magnitude else magnitude)
  }

  function Parse(s: string): Option<Message> {
    match Tokenize(s)
    case None => None
    case Some(t) =>
      match ParseU64(t.connection)
      case None => None
      case Some(id) =>
        if t.identifier == "CONNECTREQUEST" then Some(ConnectRequest(id, t.data))
        else if t.identifier == "CONNECTRESPONSE" then Some(ConnectResponse(id, t.data))
        else if t.identifier == "CANDIDATEADD" then Some(CandidateAdd(id, t.data))
        else if t.identifier == "CONNECTERROR" then
          match ParseInt(t.data)
          case None => None
          case Some(error) => Some(ConnectError(id, error))
        else None
  }

  predicate NoSpace(s: string) { forall i :: 0 <= i < |s| ==> s[i] != ' ' }

  // Splitting at the first two spaces undoes joining, whatever `data` holds.
  lemma TokenizeJoined(identifier: string, connection: string, data: string)
    requires NoSpace(identifier) && NoSpace(connection)
    ensures Tokenize(identifier + " " + connection + " " + data) == Some(Tokens(identifier, connection, data))
  {
    var s := identifier + " " + connection + " " + data;
    var first := Find(s, ' ', 0);
    var a := |identifier|;
    assert s[a] == ' ';
    assert forall k :: 0 <= k < a ==> s[k] == identifier[k];
    assert first == a;
    var b := a + 1 + |connection|;
    assert s[b] == ' ';
    assert forall k :: a + 1 <= k < b ==> s[k] == connection[k - a - 1];
    assert Find(s, ' ', first + 1) == b;
    assert s[..a] == identifier && s[a + 1..b] == connection && s[b + 1..] == data;
  }

  lemma RejoinAt(s: string, i: nat, j: nat)
    requires i < j < |s| && s[i] == ' ' && s[j] == ' '
    ensures s == s[..i] + " " + s[i + 1..j] + " " + s[j + 1..]
  {
  }

  lemma TokenizeRejoins(s: string)
    requires Tokenize(s).Some?
    ensures var t := Tokenize(s).value;
            s == t.identifier + " " + t.connection + " " + t.data && NoSpace(t.identifier) && NoSpace(t.connection)
  {
    var first := Find(s, ' ', 0);
    var second := Find(s, ' ', first + 1);
    RejoinAt(s, first, second);
  }

  lemma IdentifierHasNoSpace(m: Message)
    ensures NoSpace(Identifier(m))
  {
  }

  // The tokens of a serialized message are the ones it was joined from.
  lemma TokenizeSerialized(m: Message)
    ensures Tokenize(Serialize(m)) == Some(Tokens(Identifier(m), Decimal(m.id), Data(m)))
    ensures CanonicalDecimal(Decimal(m.id)) && DecimalValue(Decimal(m.id)) == m.id
  {
    IdentifierHasNoSpace(m);
    DecimalRoundTrip(m.id);
    TokenizeJoined(Identifier(m), Decimal(m.id), Data(m));
  }

  lemma SignedRoundTrip(n: int)
    ensures ParseInt(SignedDecimal(n)) == Some(n)
  {
    if n < 0 {
      DecimalRoundTrip(-n);
      assert Body(SignedDecimal(n)) == Decimal(-n);
    } else {
      DecimalRoundTrip(n);
    }
  }

  // What serialize writes, parse reads back: every u64 id, every data text, every error code.
  lemma RoundTrip(m: Message)
    requires m.id <= U64_MAX
    ensures Parse(Serialize(m)) == Some(m)
  {
    TokenizeSerialized(m);
    if m.ConnectError? {
      SignedRoundTrip(m.error);
    }
  }

  predicate CanonicalInt(token: string) {
    CanonicalDecimal(Body(token)) && token != "-0"
  }

  lemma SignedExact(token: string)
    requires ParseInt(token).Some?
    ensures SignedDecimal(ParseInt(token).value) == token <==> CanonicalInt(token)
  {
    DecimalExact(Body(token));
    DecimalRoundTrip(DecimalValue(Body(token)));
    if token[0] == '-' {
      assert token == "-" + Body(token);
      if DecimalValue(Body(token)) == 0 {
        assert SignedDecimal(0) == Decimal(0) == "0";
        if CanonicalDecimal(Body(token)) {
          assert Body(token) == Decimal(0);
        }
      }
    } else {
      assert Body(token) == token;
    }
  }

  // The decimal tokens of an accepted text are written the way serialize writes them.
  predicate CanonicalTokens(s: string)
    requires Tokenize(s).Some?
  {
    var t := Tokenize(s).value;
    CanonicalDecimal(t.connection) && (t.identifier == "CONNECTERROR" ==> CanonicalInt(t.data))
  }

  // What was read is in the tokens.
  lemma ParsedTokens(s: string, t: Tokens, m: Message)
    requires Tokenize(s) == Some(t) && Parse(s) == Some(m)
    ensures t.identifier == Identifier(m) && ParseU64(t.connection) == Some(m.id)
    ensures if m.ConnectError? then ParseInt(t.data) == Some(m.error) else t.data == Data(m)
    ensures m.ConnectError? <==> t.identifier == "CONNECTERROR"
  {
  }

  // Canonical tokens are printed as they were read.
  lemma CanonicalIsReserialized(s: string, t: Tokens, m: Message)
    requires Tokenize(s) == Some(t) && Parse(s) == Some(m) && CanonicalTokens(s)
    ensures Serialize(m) == s
  {
    ParsedTokens(s, t, m);
    TokenizeRejoins(s);
    DecimalExact(t.connection);
    if m.ConnectError? {
      SignedExact(t.data);
    }
  }

  // What is printed is canonical.
  lemma SerializedIsCanonical(m: Message)
    requires m.id <= U64_MAX
    ensures Tokenize(Serialize(m)).Some? && CanonicalTokens(Serialize(m))
  {
    TokenizeSerialized(m);
    if m.ConnectError? {
      SignedRoundTrip(m.error);
      SignedExact(SignedDecimal(m.error));
    }
  }

  // What parse accepts, serialize reproduces exactly when its decimal tokens are canonical.
  lemma ReserializeExact(s: string)
    requires Parse(s).Some?
    ensures Serialize(Parse(s).value) == s <==> CanonicalTokens(s)
  {
    var t, m := Tokenize(s).value, Parse(s).value;
    ParsedTokens(s, t, m);
    if CanonicalTokens(s) {
      CanonicalIsReserialized(s, t, m);
    } else if Serialize(m) == s {
      SerializedIsCanonical(m);
    }
  }

  // A decimal integer, with an optional sign.
  predicate SpellsInt(data: string, n: int) {
    || (data != "" && AllDigits(data) && DecimalValue(data) == n)
    || (|data| > 1 && data[0] == '-' && AllDigits(data[1..]) && DecimalValue(data[1..]) == -n)
  }

  // The word, the id in decimal, and the data, single spaces between them.
  predicate Spells(s: string, m: Message, word: string, id: string, data: string) {
    && s == word + " " + id + " " + data
    && id != "" && AllDigits(id) && DecimalValue(id) == m.id && m.id <= U64_MAX
    && match m
       case ConnectRequest(_, sdp) => word == "CONNECTREQUEST" && data == sdp
       case ConnectResponse(_, sdp) => word == "CONNECTRESPONSE" && data == sdp
       case CandidateAdd(_, candidate) => word == "CANDIDATEADD" && data == candidate
       case ConnectError(_, error) => word == "CONNECTERROR" && SpellsInt(data, error)
  }

  lemma IntIsSpelled(data: string, n: int)
    ensures ParseInt(data) == Some(n) <==> SpellsInt(data, n)
  {
  }

  lemma TokensAreParsed(s: string, t: Tokens, m: Message)
    requires Tokenize(s) == Some(t) && t.identifier == Identifier(m) && ParseU64(t.connection) == Some(m.id)
    requires if m.ConnectError? then ParseInt(t.data) == Some(m.error) else t.data == Data(m)
    ensures Parse(s) == Some(m)
  {
  }

  lemma SpelledIsParsed(s: string, m: Message, word: string, id: string, data: string)
    requires Spells(s, m, word, id, data)
    ensures Parse(s) == Some(m)
  {
    assert word == Identifier(m);
    IdentifierHasNoSpace(m);
    TokenizeJoined(word, id, data);
    if m.ConnectError? {
      IntIsSpelled(data, m.error);
    }
    TokensAreParsed(s, Tokens(word, id, data), m);
  }

  // What is accepted, and as what: exactly the texts that spell the message.
  lemma AcceptedIffSpelled(s: string, m: Message)
    ensures Parse(s) == Some(m) <==> exists word, id, data :: Spells(s, m, word, id, data)
  {
    if Parse(s) == Some(m) {
      var t := Tokenize(s).value;
      TokenizeRejoins(s);
      ParsedTokens(s, t, m);
      if m.ConnectError? {
        IntIsSpelled(t.data, m.error);
      }
      assert Spells(s, m, t.identifier, t.connection, t.data);
    } else if word, id, data :| Spells(s, m, word, id, data) {
      SpelledIsParsed(s, m, word, id, data);
    }
  }

  // What is sent spells the message, printed canonically.
  lemma SerializedSpells(m: Message)
    requires m.id <= U64_MAX
    ensures exists word, id, data :: Spells(Serialize(m), m, word, id, data) && CanonicalDecimal(id)
                                     && (m.ConnectError? ==> CanonicalInt(data))
  {
    TokenizeSerialized(m);
    if m.ConnectError? {
      SignedRoundTrip(m.error);
      IntIsSpelled(Data(m), m.error);
      SignedExact(Data(m));
    }
    assert Spells(Serialize(m), m, Identifier(m), Decimal(m.id), Data(m));
  }
}
