/**
  The verification client's observable contract: the remote model's reply is
  an arbitrary string (or an exception message), it is split on `|` into
  status, explanation and confidence, and the status alone decides the
  verdict.
 */
module Verification {
  import opened Text

  const Sep: char := '|'

  /** What the remote call produced: the stripped reply text, or the message
      of the exception it raised (authentication, network, bad image, ...). */
  datatype Reply = Answered(text: string) | Raised(message: string)

  /** The three fields the workflow keeps; confidence stays a string. */
  datatype Parsed = Parsed(status: string, explanation: string, confidence: string)

  /** The string the client hands back: the reply itself, or the fixed
      error line built from the exception's message. */
  function RawResult(reply: Reply): string
  {
    match reply
    case Answered(text) => text
    case Raised(message) => "ERROR" + [Sep] + "Failed to verify: " + message + [Sep] + "0"
  }

  /** Field extraction: with at least three `|`-separated pieces the first
      three are taken verbatim and the rest ignored; otherwise the whole
      string becomes the explanation of an "ERROR" with confidence "0". */
  function Parse(raw: string): (r: Parsed)
    ensures CountChar(raw, Sep) < 2 ==> r == Parsed("ERROR", raw, "0")
    ensures CountChar(raw, Sep) >= 2 ==>
      && Sep !in r.status && Sep !in r.explanation && Sep !in r.confidence
      && (exists tail :: (tail == "" || tail[0] == Sep)
            && raw == r.status + [Sep] + r.explanation + [Sep] + r.confidence + tail)
  {
    var parts := Split(raw, Sep);
    if |parts| >= 3 then
      ParsedPrefix(raw, parts);
      Parsed(parts[0], parts[1], parts[2])
    else
      Parsed("ERROR", raw, "0")
  }

  /** The raw string is its first three pieces followed by a tail that is
      empty or starts with the separator. */
  lemma ParsedPrefix(raw: string, parts: seq<string>)
    requires parts == Split(raw, Sep)
    requires |parts| >= 3
    ensures exists tail :: ((tail == "" || tail[0] == Sep)
      && raw == parts[0] + [Sep] + parts[1] + [Sep] + parts[2] + tail)
  {
    JoinSplit(raw, Sep);
    assert Join(parts, Sep) == parts[0] + [Sep] + Join(parts[1..], Sep);
    assert Join(parts[1..], Sep) == parts[1] + [Sep] + Join(parts[2..], Sep);
    var tail := if |parts| == 3 then "" else [Sep] + Join(parts[3..], Sep);
    assert Join(parts[2..], Sep) == parts[2] + tail;
    assert raw == parts[0] + [Sep] + parts[1] + [Sep] + parts[2] + tail;
  }

  /** Parsing recovers exactly the fields of a well-formed reply, whatever
      follows the third field. */
  lemma ParseFields(status: string, explanation: string, confidence: string, tail: string)
    requires Sep !in status && Sep !in explanation && Sep !in confidence
    requires tail == "" || tail[0] == Sep
    ensures Parse(status + [Sep] + explanation + [Sep] + confidence + tail)
         == Parsed(status, explanation, confidence)
  {
    var raw := status + [Sep] + explanation + [Sep] + confidence + tail;
    var rest := explanation + [Sep] + confidence + tail;
    var last := confidence + tail;
    assert raw == status + [Sep] + rest;
    assert rest == explanation + [Sep] + last;
    SplitAtSep(status, rest, Sep);
    SplitAtSep(explanation, last, Sep);
    if tail == "" {
      assert last == confidence;
      SplitNoSep(confidence, Sep);
    } else {
      assert last == confidence + [Sep] + tail[1..];
      SplitAtSep(confidence, tail[1..], Sep);
    }
    assert Split(raw, Sep)[..3] == [status, explanation, confidence];
  }

  /** The verdict: the status mentions "VERIFIED" and does not mention "NOT". */
  predicate IsVerified(status: string)
  {
    Contains(status, "VERIFIED") && !Contains(status, "NOT")
  }

  /** The condition under which the human-review button is offered. */
  predicate CanEscalate(status: string)
    ensures CanEscalate(status) <==> !IsVerified(status)
  {
    !Contains(status, "VERIFIED") || Contains(status, "NOT")
  }

  /** A raised exception always yields status "ERROR", which is never a
      verified verdict; when the message has no separator of its own, it
      is carried whole in the explanation with confidence "0". */
  lemma RaisedIsNeverVerified(message: string)
    ensures Parse(RawResult(Raised(message))).status == "ERROR"
    ensures !IsVerified(Parse(RawResult(Raised(message))).status)
    ensures Sep !in message ==>
      Parse(RawResult(Raised(message))) == Parsed("ERROR", "Failed to verify: " + message, "0")
  {
    var raw := RawResult(Raised(message));
    var rest := "Failed to verify: " + message + [Sep] + "0";
    assert raw == "ERROR" + [Sep] + rest;
    SplitAtSep("ERROR", rest, Sep);
    assert |Split(rest, Sep)| == CountChar(rest, Sep) + 1;
    var i := |"Failed to verify: " + message|;
    assert rest[i] == Sep;
    CountPositive(rest, Sep, i);
    ContainsShorter("ERROR", "VERIFIED");
    if Sep !in message {
      assert raw == "ERROR" + [Sep] + ("Failed to verify: " + message) + [Sep] + "0" + "";
      ParseFields("ERROR", "Failed to verify: " + message, "0", "");
    }
  }

  lemma {:induction false} CountPositive(s: string, c: char, i: nat)
    requires i < |s| && s[i] == c
    ensures CountChar(s, c) >= 1
  {
    if i > 0 {
      CountPositive(s[1..], c, i - 1);
    }
  }

  /** A well-formed positive reply is a verified verdict. */
  lemma ExampleVerified(raw: string)
    requires raw == "VERIFIED|Matches receipt|92"
    ensures Parse(raw) == Parsed("VERIFIED", "Matches receipt", "92")
    ensures IsVerified(Parse(raw).status)
  {
    assert raw == "VERIFIED" + [Sep] + "Matches receipt" + [Sep] + "92" + "";
    ParseFields("VERIFIED", "Matches receipt", "92", "");
    VerifiedStatus("VERIFIED");
  }

  lemma VerifiedStatus(status: string)
    requires status == "VERIFIED"
    ensures IsVerified(status)
  {
    assert "VERIFIED" <= status;
    assert 'N' !in status;
    AbsentInitial(status, "NOT");
  }

  /** A string that lacks the first character of `t` does not contain `t`. */
  lemma AbsentInitial(s: string, t: string)
    requires |t| > 0 && t[0] !in s
    ensures !Contains(s, t)
  {
    ContainsIffOccurs(s, t);
    forall i | 0 <= i <= |s|
      ensures !OccursAt(s, t, i)
    {
    }
  }

  /** "NOT VERIFIED" mentions "NOT", so it is not a verified verdict. */
  lemma ExampleNotVerified(raw: string)
    requires raw == "NOT VERIFIED|Wrong store|10"
    ensures Parse(raw) == Parsed("NOT VERIFIED", "Wrong store", "10")
    ensures !IsVerified(Parse(raw).status)
    ensures CanEscalate(Parse(raw).status)
  {
    assert raw == "NOT VERIFIED" + [Sep] + "Wrong store" + [Sep] + "10" + "";
    ParseFields("NOT VERIFIED", "Wrong store", "10", "");
    assert "NOT" <= "NOT VERIFIED";
  }

  /** A reply without separators is an error carrying the whole reply. */
  lemma ExampleGarbage(raw: string)
    requires raw == "garbage no pipes"
    ensures Parse(raw) == Parsed("ERROR", raw, "0")
    ensures !IsVerified(Parse(raw).status)
  {
    SplitNoSep(raw, Sep);
    ContainsShorter("ERROR", "VERIFIED");
  }
}
