/** The addressing scheme of the Telegram Bot API as the bridge uses it: every
    call, inbound or outbound, is a POST to `<domain>/bot<token>/<method>`
    (src/main.rs lines 15, 113-116 and 164-167). */
module TelegramApi {

  import opened Wrappers

  /** The fixed API domain (src/main.rs line 15). */
  const Domain: string := "https://api.telegram.org"

  /** The literal method name of the long-poll call (src/main.rs line 166). */
  const GetUpdates: string := "getUpdates"

  /** Everything in a method URL that precedes the method name. */
  function BotPrefix(token: string): string
  {
    Domain + "/bot" + token + "/"
  }

  /** The URL a POST for `apiMethod` goes to: `format!("{}/bot{}/{}", ...)`. */
  function MethodUrl(token: string, apiMethod: string): string
  {
    BotPrefix(token) + apiMethod
  }

  /** Reads the method name back out of a URL built for `token`; `None` when
      the URL does not carry that token's prefix. */
  function MethodOf(token: string, url: string): (m: Option<string>)
    ensures m.Some? <==> |BotPrefix(token)| <= |url| && url[..|BotPrefix(token)|] == BotPrefix(token)
    ensures m.Some? ==> url == BotPrefix(token) + m.value
  {
    var p := BotPrefix(token);
    if |p| <= |url| && url[..|p|] == p then
      assert url == p + url[|p|..];
      Some(url[|p|..])
    else None
  }


  /** The URL is exactly the domain, "/bot", the token, "/" and the method,
      and the method can be read back from it: two calls for one token go
      to the same URL only when they name the same method. */
  lemma MethodUrlRoundTrip(token: string, apiMethod: string)
    ensures MethodOf(token, MethodUrl(token, apiMethod)) == Some(apiMethod)
    ensures MethodUrl(token, apiMethod) == "https://api.telegram.org/bot" + token + "/" + apiMethod
  {
    var p := BotPrefix(token);
    assert (p + apiMethod)[..|p|] == p;
    assert (p + apiMethod)[|p|..] == apiMethod;
  }

  /** Distinct methods never share a URL under one token. */
  lemma MethodUrlInjective(token: string, m1: string, m2: string)
    ensures MethodUrl(token, m1) == MethodUrl(token, m2) <==> m1 == m2
  {
    if MethodUrl(token, m1) == MethodUrl(token, m2) {
      MethodUrlRoundTrip(token, m1);
      MethodUrlRoundTrip(token, m2);
    }
  }

  /** Body of the long-poll request: `TgPoll { offset, timeout }` (src/main.rs
      lines 29-33); `timeout` is a `u8` in the source. */
  datatype PollRequest = PollRequest(url: string, offset: nat, timeout: nat)

  /** The long-poll request the outbound loop issues from cursor `cursor`
      (src/main.rs lines 163-171). */
  function PollRequestFor(token: string, cursor: nat, timeout: nat): (r: PollRequest)
    requires timeout < 256
    ensures MethodOf(token, r.url) == Some(GetUpdates)
    ensures r.offset == cursor && r.timeout == timeout && r.timeout < 256
  {
    MethodUrlRoundTrip(token, GetUpdates);
    PollRequest(MethodUrl(token, GetUpdates), cursor, timeout)
  }
}
