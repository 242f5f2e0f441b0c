# PorkbunDynamicDNS — a Dafny model

PorkbunDynamicDNS is a one-file Deno script (`main.ts`). It keeps the DNS 'A'
record of a domain hosted at Porkbun pointing at the caller's public IP. A run
takes a domain and an optional IP from the command line. It checks that both API
keys are configured and finds the target IP: the given one, or the one the
provider's `ping` endpoint reports. It then reads the record's current content
and overwrites the record only when the two differ.

This project models that logic as pure functions over immutable values:

- `split_join.dfy` (module `SplitJoin`): `String.prototype.split` and
  `Array.prototype.join` for a one-character separator, with the round trip in
  both directions.
- `domain.dfy` (module `Domain`): `seperateDomain`. The name is split on dots and
  `splice(parts.length - 2)` is applied with JavaScript's negative-start clamping.
  The removed labels are joined as `domain` and the remaining ones as `subDomain`.
- `porkbun.dfy` (module `Porkbun`): the three provider calls. It covers the URL and
  JSON body each call sends, how the ping reply becomes a target IP, how the
  retrieve reply becomes the current IP, and the line the edit logs.
- `dyndns.dfy` (module `DynDns`): `main` as `Run(config, args, net)`. It returns
  the outcome (`Help | MissingConfig | NoTarget | NoChange(ip) | Write(ip)`), the
  calls made, in order, and the log lines.
- `js_values.dfy` (module `JsValues`): `undefined`-or-value, JavaScript truthiness
  of strings, array indexing past the end, and the decimal text of a status code.

The network is not modelled. A call is a `Call` value recorded in the run's
trace. The provider's replies (`PingReply`, `RetrieveReply`, `EditReply`) are
parameters of `Run`. The environment variables and `Deno.args` are parameters too.

Three behaviours of the code:

- The splitter is total. The empty name and names without a dot give the whole
  name as domain and an empty subdomain; the model does the same.
- A ping reply that is not JSON makes the ping throw, so the run rejects without
  a diagnostic. `Porkbun.PingAsWritten` models this (see Findings); `Run` uses
  the corrected ping instead (see Left out).
- A transport error from `fetch` is not caught anywhere in the code; the model
  has no transport (see Left out).

## Model

| member | source | states |
|---|---|---|
| SplitJoin.Split | main.ts:129 | `split('.')` yields at least one piece (`[""]` for the empty string) and no piece holds a dot |
| SplitJoin.SplitCount | main.ts:129 | a split has exactly one more piece than the string has dots |
| SplitJoin.JoinSepCount | main.ts:131-132 | `join('.')` of dot-free pieces holds exactly one dot between each pair of neighbours, and none for zero or one piece |
| SplitJoin.JoinOfSplit | main.ts:129-132 | joining the pieces of a split gives back the original string |
| SplitJoin.SplitOfJoin | main.ts:129-132 | splitting the join of one or more dot-free pieces gives back the pieces, so the split is the unique dot-free factorisation |
| SplitJoin.JoinEmpty | main.ts:131-132 | `join('.')` gives the empty string exactly for no pieces or one empty piece; two or more pieces always keep a dot |
| SplitJoin.JoinAppend | main.ts:131-132 | joining two non-empty label lists one after the other equals joining each list and putting one dot between them |
| Domain.FirstLabelEmpty | main.ts:129 | the first label is empty exactly when the name is empty or starts with a dot |
| Domain.SeparateDomainLabels | main.ts:129-133 | with n >= 2 labels, domain is label[n-2] + "." + label[n-1] and subdomain is the first n-2 labels joined by dots; it is empty when n = 2 |
| Domain.SeparateDomainShort | main.ts:129-133 | the result is (whole name, "") exactly when the name has at most one dot; this includes the empty name |
| Domain.SeparateDomainRoundTrip | main.ts:128-134 | with two or more dots, subDomain + "." + domain equals the input |
| Domain.SeparateDomainDots | main.ts:131-132 | the domain holds one dot when the name has any dot and none otherwise; the subdomain keeps every other dot except the one between the two halves |
| Domain.SeparateJoinedLabels | main.ts:128-134 | a name built from leading labels and two final labels splits back into those two final labels as domain and the leading ones, joined, as subdomain |
| Porkbun.RecordUrlNamesRecord | main.ts:71-73 | the record URL ends in `{domain}/A/{subDomain}`. A name with at most one dot appears whole before `/A/`. Otherwise the two path parts spell the name again |
| Porkbun.PingAndRetrieveRequests | main.ts:41-80 | the ping goes to `https://api.porkbun.com/api/json/v3/ping` and the read to the retrieveByNameType URL of the name, both with exactly the API key and the secret key as body |
| Porkbun.EditRequestCarriesIp | main.ts:99-110 | the edit request goes to the editByNameType URL of the name, with name "", content = the IP, ttl "600" and both keys |
| Porkbun.PingIp | main.ts:52-59 | the ping yields an IP exactly when the reply is JSON with a truthy `yourIp`, and that IP is the field |
| Porkbun.PingAsWrittenRejectsUnparsable | main.ts:52-66 | the ping as written agrees with `PingIp` on JSON replies and rejects on unparsable ones |
| Porkbun.ReadCurrentIp | main.ts:82-89 | the read logs a line exactly when the status is not 200, and the line names the status and the provider's message |
| Porkbun.ReadMatchesOnlySingleRecord | main.ts:82-95 | the read equals a non-empty IP exactly when the status is 200 and there is one record holding that IP; a failed or ambiguous read matches no non-empty IP |
| Porkbun.ReadUndefinedOnlyWithoutContent | main.ts:91-95 | the read is undefined exactly when a 200 reply holds no record, or holds one record without content |
| Porkbun.SuccessNameIsInput | main.ts:121-125 | the success line's name is the input exactly when the name is not three labels with an empty first one |
| Porkbun.EditLogNamesDomain | main.ts:113-125 | a successful edit logs the given name and the IP, except that a three-label name with an empty first label (`.a.b`) is logged without its leading dot; any name not starting with a dot is logged whole; a failed edit logs the status and message |
| Porkbun.LeadingDotDroppedFromSuccessName | main.ts:121-125 | for three labels with an empty first label (like `.a.b`), the success line names the input without its leading dot |
| JsValues.DecimalString | main.ts:84-86 | a status renders as one or more decimal digits without a leading zero |
| JsValues.DecimalRoundTrip | main.ts:84-86 | reading the rendered digits back gives the status |
| DynDns.TargetIp | main.ts:28-30 | a non-empty custom IP is the target; otherwise the ping's answer is; a target is never the empty string |
| DynDns.Run | main.ts:13-39 | the help check precedes the credential check and neither makes a call; the ping happens exactly past both guards without a custom IP; no target means no read or write; with a target the record of the given domain is read, as the last call or just before the write; the record is written exactly on a `Write` outcome, and as the last call |
| DynDns.RunCalls | main.ts:28-34 | past both guards the calls are exactly, in order: one ping when there is no custom IP, one read of the record once there is a target, one write on a `Write` outcome, and nothing else |
| DynDns.RunLog | main.ts:13-37 | with a target the log is the start message, the read's diagnostic if any, then the edit's line or the no-change message |
| DynDns.GuardLog | main.ts:14-26 | a run stopped by a guard logs the start message and then the help text or the missing-variables message |
| DynDns.WriteIffDiffers | main.ts:31-37 | with a target, the write happens exactly when the current value differs, with the target as content; otherwise only "no changes needed" is logged |
| DynDns.CustomIpSkipsPing | main.ts:28-30 | a non-empty custom IP is written or confirmed as is, and the first call is the read, never a ping |
| DynDns.PingDecidesTarget | main.ts:30-32 | without a custom IP the ping is the first call; the run stops right after it exactly when the ping finds no IP, and otherwise the read of the record is the second call |
| DynDns.FailedReadForcesWrite | main.ts:31-34 | with a target, a non-200 read or one returning several records always leads to a write |
| DynDns.NoChangeOnlyForSingleMatchingRecord | main.ts:31-37 | the write is skipped exactly when the read returned status 200 and one record already holding the target |

## Left out

- HTTP transport, HTTPS and JSON parsing (`fetch`, `request.json()`): replies are abstract values given to `Run`. A `fetch` that rejects is uncaught in the code and is not modelled.
- Environment loading (`dotenv`, `Deno.env`) and `Deno.args`: they are the `Config` and `args` parameters.
- The `log` helper's timestamp prefix and its splitting of a message into lines: each message is kept as one whole string in `RunResult.log`.
- The un-awaited `editDNSRecord` call: the write is the last step of the run, so it is modelled as an ordinary final step.
- DynDns.Run: the run uses the corrected ping `Porkbun.PingIp`, so a ping reply that is not JSON ends the run normally in `NoTarget`, where the code as written rejects right after the ping (see Findings).
- Porkbun.PingIp: the corrected ping does not model the diagnostic line the `catch` branch meant to log, because the body's `message` cannot be read from an unparsable reply.
- Porkbun.ReadCurrentIp: a non-200 reply whose body is not JSON, and a 200 reply without a `records` array, both throw in the code; the model assumes both bodies are JSON with those fields.
- Porkbun.PingIp: a `yourIp` that is not a string (a number, say) is not modelled; the field is a string or absent.
- JsValues.DecimalString: statuses are non-negative integers; JavaScript's rendering of negative or fractional numbers is not needed.

## Findings

| source | as written | input that shows it | evidently intended | confidence | as-written member | corrected member |
|---|---|---|---|---|---|---|
| main.ts:60-66 | when the ping body fails to parse, the `catch` branch calls `request.json()` again on the body the failed parse already consumed, which throws, so the whole run rejects without the diagnostic | a ping reply whose body is not JSON, such as an HTML error page | log the failure and return `undefined`, so the run ends without a target | high; not executed | Porkbun.PingAsWritten (shown by Porkbun.PingAsWrittenRejectsUnparsable) | Porkbun.PingIp |
