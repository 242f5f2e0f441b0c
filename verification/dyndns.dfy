/** The run of the updater (`main` in main.ts) as a pure function: command-line
    arguments, configuration and the provider's replies go in; the outcome, the
    calls made (in order) and the log lines come out. */
module DynDns {
  import opened JsValues
  import opened Porkbun

  const ApplicationName := "porkbundyndns"
  const StartMessage := "Starting " + ApplicationName
  const HelpText := "Requires 1 argument domain, can optionally provide 2nd argument ip"
  const MissingConfigText := "Missing at least one environment variable: PORKBUN_API_KEY PORKBUN_SECRET_KEY"

  /** `PORKBUN_API_KEY` and `PORKBUN_SECRET_KEY` as read from the environment. */
  datatype Config = Config(apiKey: Option<string>, secretKey: Option<string>)

  /** The provider's replies to each of the three calls, should they be made. */
  datatype Network = Network(ping: PingReply, retrieve: RetrieveReply, edit: EditReply)

  /** How a run ends. */
  datatype Outcome =
    | Help                 // no domain argument
    | MissingConfig        // a key is missing from the environment
    | NoTarget             // no custom IP and the ping found none
    | NoChange(ip: string) // the record already holds the target
    | Write(ip: string)    // the record is overwritten with the target

  datatype RunResult = RunResult(outcome: Outcome, calls: seq<Call>, log: seq<string>)

  /** Both keys are set to non-empty strings. */
  predicate HasCredentials(config: Config)
  {
    Truthy(config.apiKey) && Truthy(config.secretKey)
  }

  function CredentialsOf(config: Config): Credentials
    requires HasCredentials(config)
  {
    Credentials(config.apiKey.value, config.secretKey.value)
  }

  /** The run gets past both guards: a domain is given and both keys are set. */
  predicate Ready(config: Config, args: seq<string>)
  {
    Truthy(At(args, 0)) && HasCredentials(config)
  }

  /** `customIp || await pingPorkbun()`: a non-empty custom IP, else what the
      ping found. */
  function TargetIp(customIp: Option<string>, ping: PingReply): (target: Option<string>)
    ensures target.Some? ==> Truthy(target)
    ensures Truthy(customIp) ==> target == customIp
    ensures !Truthy(customIp) ==> target == PingIp(ping)
  {
    if Truthy(customIp) then customIp else PingIp(ping)
  }

  function NoChangeMessage(domain: string, ip: string): string
  {
    "'A' record for " + domain + " is already " + ip + ", no changes needed"
  }

  /** Some call of the trace is a ping. */
  predicate Pinged(calls: seq<Call>)
  {
    exists c :: c in calls && c.Ping?
  }

  /** Some call of the trace reads or writes the record. */
  predicate TouchedRecord(calls: seq<Call>)
  {
    exists c :: c in calls && !c.Ping?
  }

  /** Some call of the trace writes the record. */
  predicate Wrote(calls: seq<Call>)
  {
    exists c :: c in calls && c.Edit?
  }

  /** One run of `main`. The help check comes before the credential check, and
      neither guard makes a call; the ping is made exactly when the run gets past
      both guards without a non-empty custom IP; without a target nothing reads or
      writes the record, and with one the record of the given name is read; the
      record is written exactly when the run ends in `Write`, and the write is the
      last call. */
  function Run(config: Config, args: seq<string>, net: Network): (r: RunResult)
    ensures |r.log| >= 1 && r.log[0] == StartMessage
    ensures r.outcome == Help <==> !Truthy(At(args, 0))
    ensures r.outcome == MissingConfig <==> Truthy(At(args, 0)) && !HasCredentials(config)
    ensures r.calls == [] <==> r.outcome == Help || r.outcome == MissingConfig
    ensures Pinged(r.calls) <==> Ready(config, args) && !Truthy(At(args, 1))
    ensures r.outcome == NoTarget ==> !TouchedRecord(r.calls)
    ensures r.outcome.Write? || r.outcome.NoChange? ==>
      && Ready(config, args)
      && |r.calls| >= (if r.outcome.Write? then 2 else 1)
      && r.calls[|r.calls| - (if r.outcome.Write? then 2 else 1)] == Retrieve(CredentialsOf(config), args[0])
    ensures Wrote(r.calls) <==> r.outcome.Write?
    ensures forall i :: 0 <= i < |r.calls| - 1 ==> !r.calls[i].Edit?
    ensures r.outcome.Write? || r.outcome.NoChange? ==> r.outcome.ip != ""
  {
    if !Truthy(At(args, 0)) then RunResult(Help, [], [StartMessage, HelpText])
    else if !HasCredentials(config) then RunResult(MissingConfig, [], [StartMessage, MissingConfigText])
    else
      var domain := args[0];
      var creds := CredentialsOf(config);
      var customIp := At(args, 1);
      var pings := if Truthy(customIp) then [] else [Ping(creds)];
      var target := TargetIp(customIp, net.ping);
      assert !Truthy(customIp) ==> Ping(creds) in pings;
      if target.None? then RunResult(NoTarget, pings, [StartMessage])
      else
        var ip := target.value;
        var read := ReadCurrentIp(net.retrieve);
        var calls := pings + [Retrieve(creds, domain)];
        assert !Truthy(customIp) ==> Ping(creds) in calls;
        if read.current != Some(ip) then
          var write := Edit(creds, domain, ip);
          assert write in calls + [write];
          assert !Truthy(customIp) ==> Ping(creds) in calls + [write];
          RunResult(Write(ip), calls + [write],
                    [StartMessage] + read.log + [EditLog(domain, ip, net.edit)])
        else
          RunResult(NoChange(ip), calls, [StartMessage] + read.log + [NoChangeMessage(domain, ip)])
  }

  /** Past both guards with a target, the record is written exactly when the
      current value differs from the target, and then with the target as content
      on the given domain's record; otherwise the run only logs that no change is
      needed. */
  lemma WriteIffDiffers(config: Config, args: seq<string>, net: Network)
    requires Ready(config, args) && TargetIp(At(args, 1), net.ping).Some?
    ensures var ip := TargetIp(At(args, 1), net.ping).value;
      var r := Run(config, args, net);
      && (r.outcome == Write(ip) <==> ReadCurrentIp(net.retrieve).current != Some(ip))
      && (r.outcome == Write(ip) || r.outcome == NoChange(ip))
      && (r.outcome.Write? ==>
            && r.calls[|r.calls| - 1] == Edit(CredentialsOf(config), args[0], ip)
            && RequestOf(r.calls[|r.calls| - 1]).body.content == ip)
      && (r.outcome.NoChange? ==> r.log[|r.log| - 1] == NoChangeMessage(args[0], ip))
  {
  }

  /** A non-empty custom IP is the target and no ping is made. */
  lemma CustomIpSkipsPing(config: Config, args: seq<string>, net: Network)
    requires Ready(config, args) && Truthy(At(args, 1))
    ensures var r := Run(config, args, net);
      && !Pinged(r.calls)
      && (r.outcome == Write(args[1]) || r.outcome == NoChange(args[1]))
      && r.calls[0] == Retrieve(CredentialsOf(config), args[0])
  {
  }

  /** Without a custom IP the ping is the first call, and the run stops after it,
      having logged nothing more, exactly when the ping finds no IP; otherwise the
      read of the record comes second. */
  lemma PingDecidesTarget(config: Config, args: seq<string>, net: Network)
    requires Ready(config, args) && !Truthy(At(args, 1))
    ensures var r := Run(config, args, net);
      && r.calls[0] == Ping(CredentialsOf(config))
      && (r.outcome == NoTarget <==> PingIp(net.ping).None?)
      && (r.outcome != NoTarget ==> r.calls[1] == Retrieve(CredentialsOf(config), args[0]))
      && (r.outcome == NoTarget ==> r.calls == [Ping(CredentialsOf(config))] && r.log == [StartMessage])
  {
  }

  /** The whole trace of a run past both guards, in order: one ping when there
      is no custom IP, one read of the record once there is a target, one write
      when the run ends in `Write`, and no other call. */
  lemma RunCalls(config: Config, args: seq<string>, net: Network)
    requires Ready(config, args)
    ensures var c := CredentialsOf(config);
      var r := Run(config, args, net);
      r.calls ==
        (if Truthy(At(args, 1)) then [] else [Ping(c)]) +
        (if r.outcome == NoTarget then [] else [Retrieve(c, args[0])]) +
        (if r.outcome.Write? then [Edit(c, args[0], r.outcome.ip)] else [])
  {
  }

  /** What a run with a target logs: the start message, the read's diagnostic
      when the read failed, then the edit's line when the record was written or
      the no-change message when it was not. */
  lemma RunLog(config: Config, args: seq<string>, net: Network)
    requires Ready(config, args) && TargetIp(At(args, 1), net.ping).Some?
    ensures var ip := TargetIp(At(args, 1), net.ping).value;
      var r := Run(config, args, net);
      r.log == [StartMessage] + ReadCurrentIp(net.retrieve).log +
        [if r.outcome.Write? then EditLog(args[0], ip, net.edit) else NoChangeMessage(args[0], ip)]
  {
  }

  /** A run stopped by a guard logs the start message and the guard's reason. */
  lemma GuardLog(config: Config, args: seq<string>, net: Network)
    ensures var r := Run(config, args, net);
      && (r.outcome == Help ==> r.log == [StartMessage, HelpText])
      && (r.outcome == MissingConfig ==> r.log == [StartMessage, MissingConfigText])
  {
  }

  /** With a non-empty target, a failed read or one that finds several records
      always leads to a write. */
  lemma {:induction false} FailedReadForcesWrite(config: Config, args: seq<string>, net: Network)
    requires Ready(config, args) && TargetIp(At(args, 1), net.ping).Some?
    requires net.retrieve.status != 200 || |net.retrieve.records| > 1
    ensures Run(config, args, net).outcome == Write(TargetIp(At(args, 1), net.ping).value)
  {
    ReadMatchesOnlySingleRecord(net.retrieve, TargetIp(At(args, 1), net.ping).value);
  }

  /** The write is skipped exactly when the read succeeded with a single record
      already holding the target. */
  lemma {:induction false} NoChangeOnlyForSingleMatchingRecord(config: Config, args: seq<string>, net: Network)
    requires Ready(config, args) && TargetIp(At(args, 1), net.ping).Some?
    ensures var ip := TargetIp(At(args, 1), net.ping).value;
      Run(config, args, net).outcome == NoChange(ip) <==>
        && net.retrieve.status == 200
        && |net.retrieve.records| == 1
        && net.retrieve.records[0].content == Some(ip)
  {
    var ip := TargetIp(At(args, 1), net.ping).value;
    ReadMatchesOnlySingleRecord(net.retrieve, ip);
    WriteIffDiffers(config, args, net);
  }
}
