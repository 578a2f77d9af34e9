/** The whole reconciliation run as a function of the stored state and the
    replies the outside world gives: which calls are issued, in what order,
    what the configuration and session cookie become, and how the run ends. */
module Workflow {
  import opened Wire
  import opened Session
  import opened Selection

  /** The update calls for `ids`, in order, each carrying `ip` as its content
      and `session` as its cookie. */
  function Puts(ids: seq<string>, ip: string, session: Cookie): (calls: seq<Event>)
  {
    seq(|ids|, k requires 0 <= k < |ids| => PutEntry(ids[k], ip, session))
  }

  lemma PutsAppend(a: seq<string>, b: seq<string>, ip: string, session: Cookie)
    ensures Puts(a + b, ip, session) == Puts(a, ip, session) + Puts(b, ip, session)
  {
  }

  /** A log that has recorded the updates for `a` and then those for `b` has
      recorded the updates for `a + b`. */
  lemma PutsExtend(log: seq<Event>, a: seq<string>, b: seq<string>, ip: string, session: Cookie)
    ensures log + Puts(a, ip, session) + Puts(b, ip, session) == log + Puts(a + b, ip, session)
  {
    PutsAppend(a, b, ip, session);
  }

  /** Recording one more update extends the recorded updates by its ID. */
  lemma PutsSnoc(log: seq<Event>, a: seq<string>, id: string, ip: string, session: Cookie)
    ensures log + Puts(a, ip, session) + [PutEntry(id, ip, session)] == log + Puts(a + [id], ip, session)
  {
    PutsAppend(a, [id], ip, session);
  }

  /** The reply to the `k`-th update call (counting from 0) reports success. */
  predicate PutSucceeded(replies: nat -> Reply<PutBody>, k: nat)
  {
    replies(k).Delivered? && replies(k).value.succeeded
  }

  /** The first `n` update calls all got a successful reply. */
  predicate AllSucceeded(replies: nat -> Reply<PutBody>, n: nat)
  {
    forall k :: 0 <= k < n ==> PutSucceeded(replies, k)
  }

  lemma AllSucceededStep(replies: nat -> Reply<PutBody>, n: nat)
    requires AllSucceeded(replies, n) && PutSucceeded(replies, n)
    ensures AllSucceeded(replies, n + 1)
  {
  }

  /** Position of the first of the first `n` update calls whose reply is not a
      success, or `n` when all of them succeed. */
  function FirstFailure(replies: nat -> Reply<PutBody>, n: nat): (k: nat)
    ensures k <= n
    ensures forall j :: 0 <= j < k ==> PutSucceeded(replies, j)
    ensures k < n ==> !PutSucceeded(replies, k)
  {
    if n == 0 then 0
    else
      var k := FirstFailure(replies, n - 1);
      if k < n - 1 || !PutSucceeded(replies, n - 1) then k else n
  }

  /** The first failure is the one position where success stops. */
  lemma FirstFailureAt(replies: nat -> Reply<PutBody>, n: nat, m: nat)
    requires m <= n
    requires AllSucceeded(replies, m)
    requires m < n ==> !PutSucceeded(replies, m)
    ensures FirstFailure(replies, n) == m
  {
  }

  /** The error an unsuccessful update reply ends the run with: the
      registrar's own message, or the transport failure. */
  function PutError(reply: Reply<PutBody>): Error
  {
    match reply
    case Broken(reason) => Network(reason)
    case Delivered(body) => UpdateRejected(body.error)
  }

  /** The calls one step issues and how it ends. */
  datatype Phase = Phase(events: seq<Event>, outcome: Outcome)

  /** The DNS update step: without a session cookie the listing request cannot
      be built; otherwise the listing is fetched (its own `succeeded` flag is
      not looked at), then the selected entries are updated one by one until
      the first unsuccessful reply. */
  function UpdateStep(domain: string, ip: string, session: Option<Cookie>, listing: Reply<Listing>,
                      replies: nat -> Reply<PutBody>): Phase
  {
    match session
    case None => Phase([], Fatal(NoSession))
    case Some(cookie) =>
      match listing
      case Broken(reason) => Phase([ListDns(cookie)], Fatal(Network(reason)))
      case Delivered(l) =>
        var targets := Targets(l.domains, domain);
        var n := FirstFailure(replies, |targets|);
        if n < |targets| then
          Phase([ListDns(cookie)] + Puts(targets[..n + 1], ip, cookie), Fatal(PutError(replies(n))))
        else
          Phase([ListDns(cookie)] + Puts(targets, ip, cookie), Done)
  }

  /** Everything a run leaves behind. */
  datatype RunResult = RunResult(events: seq<Event>, config: Config, cookie: Option<Cookie>, outcome: Outcome)

  /** One run of the reconciler from configuration `config` and session
      cookie `cookie`: `resolved` is the address the IP lookup returned,
      `login`, `listing` and `replies` the registrar's answers, and
      `writeError` the failure, if any, of writing the configuration file. */
  function Reconcile(config: Config, cookie: Option<Cookie>, resolved: Reply<string>,
                     login: Reply<LoginResponse>, listing: Reply<Listing>,
                     replies: nat -> Reply<PutBody>, writeError: Option<string>): RunResult
  {
    match resolved
    case Broken(reason) => RunResult([], config, cookie, Fatal(Network(reason)))
    case Delivered(ip) =>
      if ip == config.ip then RunResult([], config, cookie, Done)
      else
        var loginCall := [LoginCall(config.username, config.password)];
        var auth := LoginStep(cookie, login);
        match auth.owned
        case Err(e) => RunResult(loginCall, config, auth.cookie, Fatal(e))
        case Ok(owned) =>
          if !Owns(owned, config.domain) then RunResult(loginCall, config, auth.cookie, Fatal(DomainNotOwned))
          else
            var update := UpdateStep(config.domain, ip, auth.cookie, listing, replies);
            if update.outcome.Fatal? then RunResult(loginCall + update.events, config, auth.cookie, update.outcome)
            else
              var saved := config.(ip := ip);
              RunResult(loginCall + update.events + [WriteConfig(saved)], saved, auth.cookie,
                        if writeError.Some? then Fatal(WriteFailed(writeError.value)) else Done)
  }

  /** When the update of entry `j` of the matching domain `i` is the first
      to fail, the update step has issued the listing call and exactly the
      updates made so far, and it ends with that reply's error. */
  lemma FailureEndsUpdate(before: seq<Event>, name: string, ip: string, session: Cookie, l: Listing, i: nat, j: nat,
                          replies: nat -> Reply<PutBody>, sent: nat)
    requires i < |l.domains| && l.domains[i].domainName == name && j < |l.domains[i].entries|
    requires l.domains[i].entries[j].recordType == AddressRecord
    requires sent == |Targets(l.domains[..i], name) + EntryTargets(l.domains[i].entries[..j])|
    requires AllSucceeded(replies, sent) && !PutSucceeded(replies, sent)
    ensures var step := UpdateStep(name, ip, Some(session), Delivered(l), replies);
      before + [ListDns(session)] + Puts(Targets(l.domains[..i], name), ip, session) +
        Puts(EntryTargets(l.domains[i].entries[..j + 1]), ip, session) == before + step.events &&
      step.outcome == Fatal(PutError(replies(sent)))
  {
    var targets := Targets(l.domains, name);
    var done := Targets(l.domains[..i], name) + EntryTargets(l.domains[i].entries[..j + 1]);
    assert |done| == sent + 1 by {
      EntryTargetsStep(l.domains[i].entries, j);
    }
    assert targets[..sent + 1] == done by {
      SelectedSoFarIsPrefix(l.domains, name, i, j + 1);
    }
    FirstFailureAt(replies, |targets|, sent);
    PutsExtend(before + [ListDns(session)], Targets(l.domains[..i], name),
               EntryTargets(l.domains[i].entries[..j + 1]), ip, session);
    assert before + [ListDns(session)] + Puts(done, ip, session) == before + ([ListDns(session)] + Puts(done, ip, session));
  }

  /** When every selected update succeeds, the update step has issued the
      listing call and one update per selected ID, and it ends normally. */
  lemma SuccessEndsUpdate(before: seq<Event>, name: string, ip: string, session: Cookie, l: Listing,
                          replies: nat -> Reply<PutBody>)
    requires AllSucceeded(replies, |Targets(l.domains, name)|)
    ensures var step := UpdateStep(name, ip, Some(session), Delivered(l), replies);
      before + [ListDns(session)] + Puts(Targets(l.domains, name), ip, session) == before + step.events &&
      step.outcome == Done
  {
    var targets := Targets(l.domains, name);
    FirstFailureAt(replies, |targets|, |targets|);
  }
}
