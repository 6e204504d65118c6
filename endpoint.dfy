/** The GET /check handler: derive the target domain from the query, run the
    resolver and the prober in sequence, and shape the JSON response. The
    network is a parameter: the two DNS calls, the clock reading when the
    probe starts, and the events the socket to each address emits. */
module CheckEndpoint {
  import opened Results
  import opened JsString
  import Resolver
  import Prober

  /** Message of the 400 response when neither parameter is given. */
  const MissingParameterMessage: string := "Either email or domain parameter is required"

  /** The status text of a successful response. */
  const OpenStatus: string := "open"

  /** JavaScript truthiness of a query parameter: present and non-empty. */
  predicate Truthy(p: Option<string>) {
    p.Some? && |p.value| > 0
  }

  /** The outcome of reading the query: a target domain (which may be
      undefined, for an email without '@'), or the missing-parameter case. */
  datatype Target = Derived(domain: Option<string>) | MissingParameters

  /** `email.split("@")[1]`: the second part, undefined when there is none. */
  function EmailDomain(email: string): (r: Option<string>)
    ensures r.None? <==> '@' !in email
  {
    OnePartIffNoSeparator(email, '@');
    var parts := Split(email, '@');
    if |parts| < 2 then None else Some(parts[1])
  }

  /** Position i holds the first '@' of `email`, and t is the run after it up
      to the next '@' or the end. */
  ghost predicate SegmentAfterFirstAt(email: string, i: int, t: string) {
    && 0 <= i < |email|
    && email[i] == '@'
    && '@' !in email[..i]
    && i + 1 + |t| <= |email|
    && email[i + 1..i + 1 + |t|] == t
    && '@' !in t
    && (i + 1 + |t| == |email| || email[i + 1 + |t|] == '@')
  }

  /** The domain taken from an email is undefined exactly when it has no '@';
      otherwise it is the text between the first '@' and the next one (or the
      end). */
  lemma EmailDomainIsSecondSegment(email: string)
    ensures EmailDomain(email).None? <==> '@' !in email
    ensures EmailDomain(email).Some? ==> exists i :: SegmentAfterFirstAt(email, i, EmailDomain(email).value)
  {
    var parts := Split(email, '@');
    SplitJoinsBack(email, '@');
    assert email == parts[0] + JoinTail(parts[1..], '@');
    if |parts| >= 2 {
      var i := |parts[0]|;
      var t := parts[1];
      var after := JoinTail(parts[2..], '@');
      assert parts[1..][1..] == parts[2..];
      assert email == parts[0] + ['@'] + t + after;
      assert email[..i] == parts[0];
      assert email[i + 1..i + 1 + |t|] == t;
      assert after == "" || after[0] == '@';
      assert SegmentAfterFirstAt(email, i, t);
    }
  }

  /** The `if (email) … else if (domain) … else` chain (lines 85-94). */
  function TargetDomain(email: Option<string>, domain: Option<string>): (t: Target)
    ensures t.MissingParameters? <==> !Truthy(email) && !Truthy(domain)
    ensures Truthy(email) ==> t.Derived? && (t.domain.None? <==> '@' !in email.value)
    ensures Truthy(email) && '@' in email.value ==> exists i :: SegmentAfterFirstAt(email.value, i, t.domain.value)
  {
    if Truthy(email) then EmailDomainIsSecondSegment(email.value); Derived(EmailDomain(email.value))
    else if Truthy(domain) then Derived(domain)
    else MissingParameters
  }

  /** The missing-parameter case arises exactly when neither parameter is
      truthy; a truthy email decides the target whatever the domain says;
      otherwise the domain parameter is the target as given. */
  lemma TargetDomainChoice(email: Option<string>, domain: Option<string>)
    ensures TargetDomain(email, domain).MissingParameters? <==> !Truthy(email) && !Truthy(domain)
    ensures Truthy(email) ==> forall other :: TargetDomain(email, other) == TargetDomain(email, domain)
    ensures Truthy(email) ==> (TargetDomain(email, domain).domain.None? <==> '@' !in email.value)
    ensures Truthy(email) && '@' in email.value ==>
              exists i :: SegmentAfterFirstAt(email.value, i, TargetDomain(email, domain).domain.value)
    ensures !Truthy(email) && Truthy(domain) ==> TargetDomain(email, domain) == Derived(domain)
  {
    if Truthy(email) {
      EmailDomainIsSecondSegment(email.value);
    }
  }

  /** The network as the handler sees it. */
  datatype Network = Network(
    resolveMx: Resolver.MxQuery,
    lookup: Resolver.AddressLookup,
    startTime: int,
    socketEvents: string -> seq<Prober.Event>)

  /** What the awaited steps produce when both succeed. */
  datatype Probed = Probed(resolution: Resolver.Resolution, duration: int)

  /** The JSON body: the success record (success: true) or the failure record
      (success: false). */
  datatype Body =
    | Found(domain: Option<string>, mxHost: string, ip: string, connectionTime: int, port: nat, status: string)
    | Failed(error: string)

  datatype Response = Response(statusCode: nat, body: Body)

  /** Lines 96-99: getMxAndIp, then checkSmtpTcp on the address. None when
      the probe's promise never settles, so the await never returns. */
  function RunPipeline(target: Option<string>, net: Network): (r: Option<Result<Probed>>)
    ensures var res := Resolver.GetMxAndIp(target, net.resolveMx, net.lookup);
            && (r.None? <==> res.Ok? && net.socketEvents(res.value.ip) == [])
            && (res.Err? ==> r == Some(Err(res.message)))
            && (r.Some? && r.value.Ok? ==>
                  && res == Ok(r.value.value.resolution)
                  && Prober.ProbeOutcome(net.startTime, net.socketEvents(res.value.ip)) == Prober.Resolved(r.value.value.duration))
            && (res.Ok? && Prober.ProbeOutcome(net.startTime, net.socketEvents(res.value.ip)).Rejected? ==>
                  r == Some(Err(Prober.ProbeOutcome(net.startTime, net.socketEvents(res.value.ip)).message)))
  {
    match Resolver.GetMxAndIp(target, net.resolveMx, net.lookup)
    case Err(message) => Some(Err(message))
    case Ok(res) =>
      match Prober.ProbeOutcome(net.startTime, net.socketEvents(res.ip))
      case Pending => None
      case Rejected(message) => Some(Err(message))
      case Resolved(duration) => Some(Ok(Probed(res, duration)))
  }

  /** Lines 102-115: the success record with status 200, or status 500 with
      the thrown error's message. */
  function Respond(target: Option<string>, outcome: Result<Probed>): (r: Response)
    ensures r.statusCode == 200 <==> outcome.Ok?
    ensures r.body.Found? <==> outcome.Ok?
    ensures outcome.Ok? ==> r.body.port == 25 && r.body.status == "open" && r.body.domain == target
    ensures outcome.Ok? ==> r.body.connectionTime == outcome.value.duration
    ensures outcome.Ok? ==> r.body.mxHost == outcome.value.resolution.mxHost && r.body.ip == outcome.value.resolution.ip
    ensures outcome.Err? ==> r.statusCode == 500 && r.body.error == outcome.message
  {
    match outcome
    case Ok(p) =>
      Response(200, Found(target, p.resolution.mxHost, p.resolution.ip, p.duration, Prober.SmtpPort, OpenStatus))
    case Err(message) => Response(500, Failed(message))
  }

  /** The whole handler; None when no response is ever sent. */
  function Check(email: Option<string>, domain: Option<string>, net: Network): (r: Option<Response>)
    ensures r.Some? ==> (r.value.statusCode == 200 <==> r.value.body.Found?)
    ensures r.Some? ==> r.value.statusCode in {200, 400, 500}
  {
    match TargetDomain(email, domain)
    case MissingParameters => Some(Response(400, Failed(MissingParameterMessage)))
    case Derived(target) =>
      match RunPipeline(target, net)
      case None => None
      case Some(outcome) => Some(Respond(target, outcome))
  }

  /** A success response reports port 25 and status "open", the target
      domain, the preferred exchange and the address the lookup gave for it,
      and as connection time the clock at the first socket event, which was a
      `connect`, minus the start time. */
  lemma SuccessResponse(email: Option<string>, domain: Option<string>, net: Network)
    requires Check(email, domain, net).Some? && Check(email, domain, net).value.body.Found?
    ensures TargetDomain(email, domain).Derived?
    ensures var target := TargetDomain(email, domain).domain;
            var r := Check(email, domain, net).value;
            var res := Resolver.GetMxAndIp(target, net.resolveMx, net.lookup);
            var events := net.socketEvents(r.body.ip);
            && r.statusCode == 200
            && r.body.port == 25 && r.body.status == "open"
            && r.body.domain == target
            && res.Ok? && res.value == Resolver.Resolution(r.body.mxHost, r.body.ip)
            && net.lookup(r.body.mxHost) == Ok(r.body.ip)
            && |events| > 0 && events[0].Connect?
            && r.body.connectionTime == events[0].now - net.startTime
  {
    var target := TargetDomain(email, domain).domain;
    var res := Resolver.GetMxAndIp(target, net.resolveMx, net.lookup);
    Resolver.ResolutionIsOfPreferredExchange(target, net.resolveMx, net.lookup);
    Prober.FirstEventDecides(net.startTime, net.socketEvents(res.value.ip));
  }

  /** A failure response is a 400 exactly in the missing-parameter case;
      every other failure is a 500 carrying the message of the stage that
      threw: the resolver's, or the rejection of the probe. */
  lemma FailureResponse(email: Option<string>, domain: Option<string>, net: Network)
    requires Check(email, domain, net).Some? && Check(email, domain, net).value.body.Failed?
    ensures var r := Check(email, domain, net).value;
            && (r.statusCode == 400 <==> TargetDomain(email, domain).MissingParameters?)
            && (r.statusCode == 400 ==> r.body.error == MissingParameterMessage)
            && (r.statusCode != 400 ==> r.statusCode == 500)
    ensures TargetDomain(email, domain).Derived? ==>
            var target := TargetDomain(email, domain).domain;
            var m := Check(email, domain, net).value.body.error;
            var res := Resolver.GetMxAndIp(target, net.resolveMx, net.lookup);
            || res == Err(m)
            || (res.Ok? && Prober.ProbeOutcome(net.startTime, net.socketEvents(res.value.ip)) == Prober.Rejected(m))
  {
  }

  /** The handler stays silent exactly when the target is derived, the
      resolver succeeds, and the socket emits no event at all. */
  lemma NoResponseIffNoSocketEvent(email: Option<string>, domain: Option<string>, net: Network)
    ensures Check(email, domain, net).None? <==>
            && TargetDomain(email, domain).Derived?
            && var res := Resolver.GetMxAndIp(TargetDomain(email, domain).domain, net.resolveMx, net.lookup);
               res.Ok? && net.socketEvents(res.value.ip) == []
  {
    if TargetDomain(email, domain).Derived? {
      var res := Resolver.GetMxAndIp(TargetDomain(email, domain).domain, net.resolveMx, net.lookup);
      if res.Ok? {
        Prober.FirstEventDecides(net.startTime, net.socketEvents(res.value.ip));
      }
    }
  }

  /** A domain with one MX record whose address accepts 12 ms after the
      probe starts gets the full success record. */
  lemma ReachableExchange(net: Network)
    requires net.resolveMx(Some("example.com")) == Ok(Some([Resolver.MxRecord("mail.example.com", 10)]))
    requires net.lookup("mail.example.com") == Ok("93.184.216.34")
    requires net.socketEvents("93.184.216.34") == [Prober.Connect(net.startTime + 12)]
    ensures Check(None, Some("example.com"), net)
            == Some(Response(200, Found(Some("example.com"), "mail.example.com", "93.184.216.34", 12, 25, "open")))
  {
    Prober.FirstEventDecides(net.startTime, [Prober.Connect(net.startTime + 12)]);
  }

  /** An email address whose domain has two exchanges tied at the minimum
      probes the later one (whatever the lookup would say of the earlier);
      a refused connection is reported as a 500 with the socket's error. */
  lemma RefusedAtLaterTiedExchange(email: string, net: Network)
    requires email == "user@example.com"
    requires net.resolveMx(Some("example.com"))
             == Ok(Some([Resolver.MxRecord("mx1.example.com", 5), Resolver.MxRecord("mx2.example.com", 5)]))
    requires net.lookup("mx2.example.com") == Ok("192.0.2.7")
    requires net.socketEvents("192.0.2.7") == [Prober.Error("connect ECONNREFUSED 192.0.2.7:25")]
    ensures Check(Some(email), None, net) == Some(Response(500, Failed("connect ECONNREFUSED 192.0.2.7:25")))
  {
    EmailDomainOfUserAtExample();
    TiedExchangesResolveToLater(net);
    var res := Resolver.Resolution("mx2.example.com", "192.0.2.7");
    assert Resolver.GetMxAndIp(Some("example.com"), net.resolveMx, net.lookup) == Ok(res);
    Prober.FirstEventDecides(net.startTime, net.socketEvents(res.ip));
    assert RunPipeline(Some("example.com"), net) == Some(Err("connect ECONNREFUSED 192.0.2.7:25"));
  }

  /** The resolver part of the scenario above. */
  lemma TiedExchangesResolveToLater(net: Network)
    requires net.resolveMx(Some("example.com"))
             == Ok(Some([Resolver.MxRecord("mx1.example.com", 5), Resolver.MxRecord("mx2.example.com", 5)]))
    requires net.lookup("mx2.example.com") == Ok("192.0.2.7")
    ensures Resolver.GetMxAndIp(Some("example.com"), net.resolveMx, net.lookup)
            == Ok(Resolver.Resolution("mx2.example.com", "192.0.2.7"))
  {
    var mx1, mx2 := Resolver.MxRecord("mx1.example.com", 5), Resolver.MxRecord("mx2.example.com", 5);
    Resolver.LaterTieWins([mx1], mx2);
    assert [mx1] + [mx2] == [mx1, mx2];
  }

  /** The domain part of the sample address. */
  lemma EmailDomainOfUserAtExample()
    ensures EmailDomain("user@example.com") == Some("example.com")
  {
    var parts := ["user", "example.com"];
    assert Join(parts, '@') == "user@example.com";
    JoinSplitsBack(parts, '@');
  }

  /** A domain with no MX record gets a 500 with the fixed message. */
  lemma NoExchange(net: Network)
    requires net.resolveMx(Some("example.com")) == Ok(Some([]))
    ensures Check(None, Some("example.com"), net) == Some(Response(500, Failed("No MX records found")))
  {
  }
}
