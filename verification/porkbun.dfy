/** The three clients of the provider's JSON API (main.ts): the ping that reports
    the caller's public IP, the read of the current 'A' record and the edit that
    overwrites it. Network traffic is not modelled: a call is a `Call` value, its
    wire form is `RequestOf`, and the provider's replies are values handed in. */
module Porkbun {
  import opened JsValues
  import opened SplitJoin
  import opened Domain

  const Hostname := "https://api.porkbun.com"
  const PingUrl := Hostname + "/api/json/v3/ping"
  const RetrieveEndpoint := "retrieveByNameType"
  const EditEndpoint := "editByNameType"
  const EditTtl := "600"
  const SuccessText := " A record succesfully set to "

  /** The API key pair sent in every request body. */
  datatype Credentials = Credentials(apiKey: string, secretKey: string)

  /** One call to the provider, in the order the run makes them. */
  datatype Call =
    | Ping(creds: Credentials)
    | Retrieve(creds: Credentials, fullDomain: string)
    | Edit(creds: Credentials, fullDomain: string, ip: string)

  /** The JSON body of a request, with the source's field names. */
  datatype Body =
    | AuthBody(apikey: string, secretapikey: string)
    | EditBody(apikey: string, secretapikey: string, name: string, content: string, ttl: string)

  /** A POST request: where it goes and what it carries. */
  datatype Request = Request(url: string, body: Body)

  /** `/api/json/v3/dns/{endpoint}/{domain}/A/{subDomain}` on the provider's host,
      with the name split by `seperateDomain`. */
  function RecordUrl(endpoint: string, full: string): string
  {
    var d := SeparateDomain(full);
    Hostname + "/api/json/v3/dns/" + endpoint + "/" + d.domain + "/A/" + d.subDomain
  }

  /** The request each call sends. */
  function RequestOf(c: Call): Request
  {
    match c
    case Ping(creds) => Request(PingUrl, AuthBody(creds.apiKey, creds.secretKey))
    case Retrieve(creds, full) =>
      Request(RecordUrl(RetrieveEndpoint, full), AuthBody(creds.apiKey, creds.secretKey))
    case Edit(creds, full, ip) =>
      Request(RecordUrl(EditEndpoint, full), EditBody(creds.apiKey, creds.secretKey, "", ip, EditTtl))
  }

  /** A record URL names the record by the name's labels: a name with at most one
      dot is the domain part whole, with an empty subdomain after `/A/`; otherwise
      the two path parts are a subdomain and domain that spell the name again. */
  lemma {:induction false} RecordUrlNamesRecord(endpoint: string, full: string)
    ensures var prefix := Hostname + "/api/json/v3/dns/" + endpoint + "/";
      DotCount(full) <= 1 ==> RecordUrl(endpoint, full) == prefix + full + "/A/"
    ensures var prefix := Hostname + "/api/json/v3/dns/" + endpoint + "/";
      DotCount(full) >= 2 ==>
        exists d: DomainParts ::
          && RecordUrl(endpoint, full) == prefix + d.domain + "/A/" + d.subDomain
          && d.subDomain + [Dot] + d.domain == full
  {
    var d := SeparateDomain(full);
    SeparateDomainShort(full);
    if DotCount(full) >= 2 {
      SeparateDomainRoundTrip(full);
      assert d.subDomain + [Dot] + d.domain == full;
    } else {
      assert d.subDomain == [];
    }
  }

  /** The edit request goes to the record URL of the name and its body
      overrides the content with the new IP, leaves the name empty, sets the TTL
      to 600 seconds and carries the key pair. */
  lemma EditRequestCarriesIp(creds: Credentials, full: string, ip: string)
    ensures var q := RequestOf(Edit(creds, full, ip));
      && q.url == RecordUrl(EditEndpoint, full)
      && q.body.name == "" && q.body.content == ip && q.body.ttl == "600"
      && q.body.apikey == creds.apiKey && q.body.secretapikey == creds.secretKey
  {
  }

  /** The ping goes to the ping URL and the read to the retrieveByNameType URL
      of the name; both carry only the key pair. */
  lemma PingAndRetrieveRequests(creds: Credentials, full: string)
    ensures RequestOf(Ping(creds)) == Request(PingUrl, AuthBody(creds.apiKey, creds.secretKey))
    ensures PingUrl == "https://api.porkbun.com/api/json/v3/ping"
    ensures RequestOf(Retrieve(creds, full)) ==
      Request(RecordUrl(RetrieveEndpoint, full), AuthBody(creds.apiKey, creds.secretKey))
    ensures RetrieveEndpoint == "retrieveByNameType"
  {
  }

  // ---------------------------------------------------------------- ping

  /** What the ping endpoint answers: a JSON body whose `yourIp` field may be
      missing, or a body that does not parse as JSON. */
  datatype PingReply = PingJson(yourIp: Option<string>) | PingNotJson

  /** How an awaited call settles: with a value, or by throwing. */
  datatype Settled<T> = Resolved(value: T) | Rejected

  /** `pingPorkbun` as written: a truthy `yourIp` is the answer, a falsy one gives
      `undefined`; when the body does not parse, the `catch` branch calls
      `request.json()` again on the body the failed parse already consumed, which
      throws, so the call rejects instead of returning `undefined`. */
  function PingAsWritten(reply: PingReply): Settled<Option<string>>
  {
    match reply
    case PingJson(ip) => Resolved(if Truthy(ip) then ip else None)
    case PingNotJson => Rejected
  }

  /** `pingPorkbun` as intended: the IP is found exactly when the reply is JSON
      with a truthy `yourIp`, and is then that field; every other reply, the
      unparsable one included, gives `undefined`. */
  function PingIp(reply: PingReply): (ip: Option<string>)
    ensures ip.Some? <==> reply.PingJson? && Truthy(reply.yourIp)
    ensures ip.Some? ==> ip == reply.yourIp && Truthy(ip)
  {
    if reply.PingJson? && Truthy(reply.yourIp) then reply.yourIp else None
  }

  /** The code as written agrees with the intended ping on every JSON reply and
      rejects on every unparsable one, where the intended ping answers `undefined`. */
  lemma PingAsWrittenRejectsUnparsable(reply: PingReply)
    ensures reply.PingJson? ==> PingAsWritten(reply) == Resolved(PingIp(reply))
    ensures reply.PingNotJson? ==> PingAsWritten(reply) == Rejected && PingIp(reply) == None
  {
  }

  // ---------------------------------------------------------------- read

  /** One DNS record of the retrieve reply; only its `content` is consulted. */
  datatype DnsRecord = DnsRecord(content: Option<string>)

  /** The retrieve endpoint's answer: HTTP status, the body's `message` and its
      `records`. */
  datatype RetrieveReply = RetrieveReply(status: nat, message: string, records: seq<DnsRecord>)

  /** What `getCurrentSetIp` returns (`undefined` is `None`) and the lines it logs. */
  datatype ReadResult = ReadResult(current: Option<string>, log: seq<string>)

  /** `getCurrentSetIp`: a failed status is logged and reads as `""`, more than
      one record reads as `""`, otherwise the value is `records[0]?.content`. */
  function ReadCurrentIp(reply: RetrieveReply): (r: ReadResult)
    ensures r.log != [] <==> reply.status != 200
    ensures reply.status != 200 ==>
      r.log == ["Could not get DNS records || " + DecimalString(reply.status) + ": " + reply.message]
  {
    if reply.status != 200 then
      ReadResult(Some(""), ["Could not get DNS records || " + DecimalString(reply.status) + ": " + reply.message])
    else if |reply.records| > 1 then ReadResult(Some(""), [])
    else ReadResult(if |reply.records| == 1 then reply.records[0].content else None, [])
  }

  /** The read reports a non-empty IP exactly when the request succeeded and
      returned a single record holding that IP; a failed or ambiguous read
      reports something different from every non-empty IP. */
  lemma ReadMatchesOnlySingleRecord(reply: RetrieveReply, target: string)
    requires target != ""
    ensures ReadCurrentIp(reply).current == Some(target) <==>
      reply.status == 200 && |reply.records| == 1 && reply.records[0].content == Some(target)
    ensures reply.status != 200 || |reply.records| > 1 ==> ReadCurrentIp(reply).current != Some(target)
  {
  }

  /** The read is `undefined` exactly when a successful reply holds no record, or
      a single record without content. */
  lemma ReadUndefinedOnlyWithoutContent(reply: RetrieveReply)
    ensures ReadCurrentIp(reply).current.None? <==>
      reply.status == 200 && (reply.records == [] || (|reply.records| == 1 && reply.records[0].content.None?))
  {
  }

  // ---------------------------------------------------------------- edit

  /** The edit endpoint's answer: HTTP status and the body's `message`. */
  datatype EditReply = EditReply(status: nat, message: string)

  /** The name the success line reports: `subDomain.` (when the subdomain is
      non-empty) followed by the domain. */
  function SuccessName(d: DomainParts): string
  {
    (if d.subDomain != [] then d.subDomain + [Dot] else []) + d.domain
  }

  /** The line `editDNSRecord` logs once the provider has answered. */
  function EditLog(full: string, ip: string, reply: EditReply): string
  {
    if reply.status != 200 then "Could not set DNS || " + DecimalString(reply.status) + ": " + reply.message
    else SuccessName(SeparateDomain(full)) + SuccessText + ip
  }

  /** The one shape of name the success line does not repeat: three labels, the
      first of them empty (a name such as `.a.b`). */
  predicate DotLedThreeLabels(full: string)
  {
    |Labels(full)| == 3 && Labels(full)[0] == []
  }

  /** The success line names exactly the input, except for a name of three
      labels whose first is empty. */
  lemma {:induction false} SuccessNameIsInput(full: string)
    ensures SuccessName(SeparateDomain(full)) == full <==> !DotLedThreeLabels(full)
  {
    var parts := Labels(full);
    var n := |parts|;
    var d := SeparateDomain(full);
    SplitCount(full, Dot);
    SeparateDomainShort(full);
    if DotCount(full) >= 2 {
      SeparateDomainRoundTrip(full);
      SeparateDomainLabels(full);
      var leading := parts[..n - 2];
      JoinEmpty(leading, Dot);
      assert leading[0] == parts[0];
      if d.subDomain == [] {
        assert full == [Dot] + d.domain;
        assert SuccessName(d) != full;
      } else {
        assert SuccessName(d) == full;
      }
    }
  }

  /** A successful edit reports the name it was given, except that a name of
      three labels whose first is empty (`.a.b`) loses its leading dot; in
      particular a name that does not start with a dot is reported whole. A failed
      edit reports the status and the provider's message. */
  lemma {:induction false} EditLogNamesDomain(full: string, ip: string, reply: EditReply)
    ensures reply.status == 200 && !DotLedThreeLabels(full) ==>
      EditLog(full, ip, reply) == full + SuccessText + ip
    ensures reply.status == 200 && DotLedThreeLabels(full) ==>
      EditLog(full, ip, reply) == full[1..] + SuccessText + ip
    ensures reply.status == 200 && (full == [] || full[0] != Dot) ==>
      EditLog(full, ip, reply) == full + SuccessText + ip
    ensures reply.status != 200 ==>
      EditLog(full, ip, reply) == "Could not set DNS || " + DecimalString(reply.status) + ": " + reply.message
  {
    SuccessNameIsInput(full);
    FirstLabelEmpty(full);
    if DotLedThreeLabels(full) {
      LeadingDotDroppedFromSuccessName(full);
    }
  }

  /** The exception: for a name of three labels whose first is empty (such as
      `.a.b`) the subdomain is that empty label, so the success line names the
      name without its leading dot. */
  lemma {:induction false} LeadingDotDroppedFromSuccessName(full: string)
    requires |Labels(full)| == 3 && Labels(full)[0] == []
    ensures SuccessName(SeparateDomain(full)) == full[1..] != full
  {
    var parts := Labels(full);
    var d := SeparateDomain(full);
    SplitCount(full, Dot);
    SeparateDomainLabels(full);
    assert parts[..1] == [[]];
    assert d.subDomain == [];
    SeparateDomainRoundTrip(full);
    assert full == [Dot] + d.domain;
  }
}
