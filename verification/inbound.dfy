/** The inbound bridge's decision logic (src/main.rs lines 103-137): a decoded
    MQTT payload is split at its first newline into a Bot API method name and
    a JSON body, and becomes one POST to that method's URL; anything else is
    dropped. Only the part count is checked: an empty method or an empty
    body is still forwarded. */
module Inbound {

  import opened Wrappers
  import opened TelegramApi

  /** The separator between method and body. */
  const Newline: char := '\n'

  /** The content type every forwarded POST carries (src/main.rs line 117). */
  const JsonContentType: string := "application/json"

  /** A parsed queue message: the two parts of `splitn(2, "\n")`. */
  datatype Envelope = Envelope(apiMethod: string, body: string)

  /** One HTTP POST to the Bot API. */
  datatype Request = Request(url: string, contentType: string, body: string)

  /** Position of the first occurrence of `c` in `s`. */
  function IndexOf(s: string, c: char): (r: Option<nat>)
    ensures r.None? <==> c !in s
    ensures r.Some? ==> r.value < |s| && s[r.value] == c && c !in s[..r.value]
  {
    if |s| == 0 then None
    else if s[0] == c then Some(0)
    else match IndexOf(s[1..], c)
      case None => None
      case Some(k) =>
        assert s[..k + 1] == [s[0]] + s[1..][..k];
        Some(k + 1)
  }

  /** `s.splitn(2, "\n").collect()`: the whole string when it holds no
      newline, otherwise the text before the first newline and the text
      after it. */
  function SplitOnce(s: string): (parts: seq<string>)
    ensures 1 <= |parts| <= 2
    ensures |parts| == 2 <==> Newline in s
    ensures |parts| == 1 ==> parts[0] == s
    ensures |parts| == 2 ==> Newline !in parts[0] && parts[0] + [Newline] + parts[1] == s
  {
    match IndexOf(s, Newline)
    case None => [s]
    case Some(k) =>
      assert s == s[..k] + [Newline] + s[k + 1..];
      [s[..k], s[k + 1..]]
  }

  /** The wire form `"<method>\n<body>"` of an envelope. */
  function Join(e: Envelope): string
  {
    e.apiMethod + [Newline] + e.body
  }

  /** Accepts exactly the messages whose split has two parts. */
  function Parse(text: string): (r: Option<Envelope>)
    ensures r.Some? <==> Newline in text
    ensures r.Some? ==> Newline !in r.value.apiMethod && Join(r.value) == text
  {
    var parts := SplitOnce(text);
    if |parts| == 2 then Some(Envelope(parts[0], parts[1])) else None
  }

  /** The other half of the round trip: an envelope whose method holds no
      newline is parsed back from its wire form, whatever its body holds. */
  lemma ParseJoin(e: Envelope)
    requires Newline !in e.apiMethod
    ensures Parse(Join(e)) == Some(e)
  {
    var r := Parse(Join(e));
    JoinCancel(r.value, e);
  }

  /** Two wire forms are equal only for equal envelopes when neither method
      holds a newline. */
  lemma JoinCancel(a: Envelope, b: Envelope)
    requires Newline !in a.apiMethod && Newline !in b.apiMethod
    requires Join(a) == Join(b)
    ensures a == b
  {
    var s := Join(a);
    assert s[|a.apiMethod|] == Newline;
    assert s[|b.apiMethod|] == Newline;
    assert |a.apiMethod| == |b.apiMethod|;
    assert a.apiMethod == s[..|a.apiMethod|] == b.apiMethod;
    assert a.body == s[|a.apiMethod| + 1..] == b.body;
  }

  /** Acceptance looks only at the part count: an empty method is
      forwarded. */
  lemma EmptyMethodAccepted(body: string)
    ensures Parse([Newline] + body) == Some(Envelope("", body))
  {
    assert Join(Envelope("", body)) == [Newline] + body;
    ParseJoin(Envelope("", body));
  }

  /** Acceptance looks only at the part count: an empty body is forwarded. */
  lemma EmptyBodyAccepted(m: string)
    requires Newline !in m
    ensures Parse(m + [Newline]) == Some(Envelope(m, ""))
  {
    assert Join(Envelope(m, "")) == m + [Newline];
    ParseJoin(Envelope(m, ""));
  }

  /** A message without newline is dropped, whatever else it holds. */
  lemma NoNewlineRejected(token: string, text: string)
    requires Newline !in text
    ensures Parse(text) == None
    ensures Handle(token, Some(text)) == None
  {
  }

  /** What one received publish packet turns into. `decoded` is the result
      of `std::str::from_utf8` on the payload, `None` when it is not UTF-8. */
  function Handle(token: string, decoded: Option<string>): (r: Option<Request>)
    ensures r.Some? <==> decoded.Some? && Newline in decoded.value
    ensures r.Some? ==>
      var k := IndexOf(decoded.value, Newline).value;
      && r.value.url == MethodUrl(token, decoded.value[..k])
      && r.value.body == decoded.value[k + 1..]
      && r.value.contentType == JsonContentType
  {
    match decoded
    case None => None
    case Some(text) =>
      match Parse(text)
      case None => None
      case Some(e) =>
        var k := IndexOf(text, Newline).value;
        assert text == e.apiMethod + [Newline] + e.body;
        assert IndexOf(text, Newline) == Some(|e.apiMethod|);
        assert text[..k] == e.apiMethod;
        assert text[k + 1..] == e.body;
        Some(Request(MethodUrl(token, e.apiMethod), JsonContentType, e.body))
  }

  /** Every well-formed message `"<m>\n<body>"` becomes exactly one POST to
      the URL of `m` carrying `body` unchanged. */
  lemma HandleWellFormed(token: string, e: Envelope)
    requires Newline !in e.apiMethod
    ensures Handle(token, Some(Join(e))) == Some(Request(MethodUrl(token, e.apiMethod), JsonContentType, e.body))
  {
    ParseJoin(e);
  }

  /** The POSTs the receive loop issues for a stream of packets, in order:
      a dropped message never stops the ones after it. */
  function ForwardAll(token: string, packets: seq<Option<string>>): (rs: seq<Request>)
    ensures |rs| <= |packets|
  {
    if |packets| == 0 then []
    else
      var last := packets[|packets| - 1];
      ForwardAll(token, packets[..|packets| - 1])
      + match Handle(token, last) { case None => [] case Some(r) => [r] }
  }

  /** Messages are handled independently: the POSTs for a concatenated
      stream are the POSTs for each half, one after the other. */
  lemma {:induction false} ForwardAllAppend(token: string, a: seq<Option<string>>, b: seq<Option<string>>)
    ensures ForwardAll(token, a + b) == ForwardAll(token, a) + ForwardAll(token, b)
    decreases |b|
  {
    if |b| == 0 {
      assert a + b == a;
    } else {
      var b' := b[..|b| - 1];
      assert (a + b)[..|a + b| - 1] == a + b';
      ForwardAllAppend(token, a, b');
    }
  }

  /** A stream of packets yields one POST per message that decodes and holds
      a newline, and none for the others. */
  lemma {:induction false} ForwardAllCount(token: string, packets: seq<Option<string>>)
    ensures |ForwardAll(token, packets)| == |AcceptedIndices(packets)|
    decreases |packets|
  {
    if |packets| == 0 {
      assert AcceptedIndices(packets) == {};
    } else {
      var n := |packets| - 1;
      var init := packets[..n];
      ForwardAllCount(token, init);
      AcceptedIndicesSnoc(packets);
    }
  }

  /** The indices of the accepted packets of a stream. */
  ghost function AcceptedIndices(packets: seq<Option<string>>): set<nat>
  {
    set i: nat | i < |packets| && packets[i].Some? && Newline in packets[i].value
  }

  lemma AcceptedIndicesSnoc(packets: seq<Option<string>>)
    requires |packets| > 0
    ensures var n := |packets| - 1;
      AcceptedIndices(packets)
        == AcceptedIndices(packets[..n]) + (if packets[n].Some? && Newline in packets[n].value then {n} else {})
  {
  }

  /** A packet that is not valid UTF-8 is dropped and the next message is
      still forwarded normally. */
  lemma UndecodableThenWellFormed(token: string, e: Envelope)
    requires Newline !in e.apiMethod
    ensures ForwardAll(token, [None, Some(Join(e))])
         == [Request(MethodUrl(token, e.apiMethod), JsonContentType, e.body)]
  {
    var packets := [None, Some(Join(e))];
    HandleWellFormed(token, e);
    var first: seq<Option<string>> := [None];
    assert packets[..1] == first;
    assert first[..0] == [];
    assert ForwardAll(token, first) == [];
  }

  /** A `sendMessage` call with a JSON body goes to the `sendMessage` URL
      with the body untouched. */
  lemma SendMessageExample(token: string)
    ensures Handle(token, Some("sendMessage\n{\"chat_id\":1,\"text\":\"hi\"}"))
         == Some(Request(MethodUrl(token, "sendMessage"), JsonContentType, "{\"chat_id\":1,\"text\":\"hi\"}"))
  {
    var wire := "sendMessage\n{\"chat_id\":1,\"text\":\"hi\"}";
    var e := Envelope(wire[..11], wire[12..]);
    assert wire[..11] == "sendMessage";
    assert wire[12..] == "{\"chat_id\":1,\"text\":\"hi\"}";
    assert wire == wire[..11] + [Newline] + wire[12..];
    HandleWellFormed(token, e);
  }
}
