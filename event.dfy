/**
 * The per-request event record of the webhook handler (main.go), how its
 * fields would be taken from the request headers, how the body is recovered
 * through the JSON encoder and Base64, and the parameter list of the insert
 * statement.
 */
module Event {
  import opened Base64

  /** `gitlabEvent`: the header fields, the payload and the header flag. */
  datatype GitlabEvent = GitlabEvent(
    contentLength: string,
    eventType: string,
    instance: string,
    payload: seq<byte>,
    token: string,
    userAgent: string,
    eventUuid: string,
    gotAllHeaders: bool)

  /** `var vgitlabEvent gitlabEvent`: Go's zero value, every string empty and the flag false. */
  const ZeroEvent: GitlabEvent := GitlabEvent("", "", "", [], "", "", "", false)

  datatype Option<T> = None | Some(value: T)

  /** Request headers as Go's `http.Header`: each canonical name maps to its list of values. */
  type Header = map<string, seq<string>>

  /** `h[name][0]`, or None where Go's indexing panics (name absent or no value). */
  function FirstValue(h: Header, name: string): (r: Option<string>)
    ensures r.Some? <==> name in h && |h[name]| > 0
    ensures r.Some? ==> r.value == h[name][0]
  {
    if name in h && |h[name]| > 0 then Some(h[name][0]) else None
  }

  /** Whether `name` carries at least one value, so that `h[name][0]` does not panic. */
  predicate HasValue(h: Header, name: string)
  {
    name in h && |h[name]| > 0
  }

  /**
   * The struct literal the handler builds when the header check passes:
   * each field is the first value of one named header; the payload is empty
   * and `gotAllHeaders` is left false. None stands for the index-out-of-range
   * panic when any of the six headers is missing.
   */
  function EventFromHeaders(h: Header): (r: Option<GitlabEvent>)
    ensures r.Some? <==>
      && HasValue(h, "Content-Length") && HasValue(h, "X-Gitlab-Event")
      && HasValue(h, "X-Gitlab-Instance") && HasValue(h, "X-Gitlab-Token")
      && HasValue(h, "User-Agent") && HasValue(h, "X-Gitlab-Event-Uuid")
    ensures r.Some? ==>
      && r.value.contentLength == h["Content-Length"][0]
      && r.value.eventType == h["X-Gitlab-Event"][0]
      && r.value.instance == h["X-Gitlab-Instance"][0]
      && r.value.token == h["X-Gitlab-Token"][0]
      && r.value.userAgent == h["User-Agent"][0]
      && r.value.eventUuid == h["X-Gitlab-Event-Uuid"][0]
      && r.value.payload == []
      && !r.value.gotAllHeaders
  {
    match (FirstValue(h, "Content-Length"), FirstValue(h, "X-Gitlab-Event"), FirstValue(h, "X-Gitlab-Instance"),
           FirstValue(h, "X-Gitlab-Token"), FirstValue(h, "User-Agent"), FirstValue(h, "X-Gitlab-Event-Uuid"))
    case (Some(contentLength), Some(eventType), Some(instance), Some(token), Some(userAgent), Some(eventUuid)) =>
      Some(ZeroEvent.(contentLength := contentLength, eventType := eventType, instance := instance,
                      token := token, userAgent := userAgent, eventUuid := eventUuid))
    case _ => None
  }

  /**
   * `json.Marshal` of a non-nil `[]byte`: a JSON string holding the standard
   * Base64 encoding. The Base64 alphabet and '=' need no JSON escaping.
   */
  function MarshalBytes(b: seq<byte>): (json: seq<char>)
    ensures |json| >= 2 && json[0] == '"' && json[|json| - 1] == '"'
    ensures json[1..|json| - 1] == Encode(b)
  {
    ['"'] + Encode(b) + ['"']
  }

  /**
   * The handler's recovery of the body: marshal it, drop the first and the
   * last character (the quotes; the slice is in bounds) and Base64-decode
   * what is left. The decode succeeds and gives back exactly the body.
   */
  lemma PayloadRecovered(body: seq<byte>)
    ensures var json := MarshalBytes(body);
            && 1 <= |json| - 1
            && Decode(json[1..|json| - 1]) == Decoding(body, true)
  {
    RoundTrip(body);
  }

  /**
   * The eight values bound to the insert statement, in the order of its
   * column list: contentLength, userAgent, eventType, instance, eventUuid,
   * payload, token, gotAllHeaders.
   */
  datatype InsertParams = InsertParams(
    contentLength: string,
    userAgent: string,
    eventType: string,
    instance: string,
    eventUuid: string,
    payload: seq<byte>,
    token: string,
    gotAllHeaders: bool)

  /**
   * The arguments of `Exec`, taken from the event in the statement's column
   * order: each column receives the event field of the same name.
   */
  function BindEvent(e: GitlabEvent): (p: InsertParams)
    ensures p.contentLength == e.contentLength && p.userAgent == e.userAgent
    ensures p.eventType == e.eventType && p.instance == e.instance
    ensures p.eventUuid == e.eventUuid && p.payload == e.payload
    ensures p.token == e.token && p.gotAllHeaders == e.gotAllHeaders
  {
    InsertParams(e.contentLength, e.userAgent, e.eventType, e.instance,
                 e.eventUuid, e.payload, e.token, e.gotAllHeaders)
  }
}
