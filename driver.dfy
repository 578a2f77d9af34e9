/** The program's global state and the steps that change it: the loaded
    configuration, the session cookie, and the log of calls issued so far. */
module Driver {
  import opened Wire
  import opened Session
  import opened Selection
  import opened Workflow

  class Reconciler {
    /** The configuration loaded at start; only its `ip` is ever rewritten. */
    var config: Config
    /** The session cookie; none until a login reply carries one. */
    var cookie: Option<Cookie>
    /** Every remote call issued, and every configuration write, in order. */
    var calls: seq<Event>

    constructor (loaded: Config)
      ensures config == loaded && cookie == None && calls == []
    {
      config := loaded;
      cookie := None;
      calls := [];
    }

    /** Logs in with the stored credentials: keeps the last `hoverauth` cookie
        of the reply, then checks the reply and collects the owned domains. */
    method Login(reply: Reply<LoginResponse>) returns (owned: Result<map<string, bool>>)
      modifies this`cookie, this`calls
      ensures calls == old(calls) + [LoginCall(config.username, config.password)]
      ensures LoginOutcome(cookie, owned) == LoginStep(old(cookie), reply)
      ensures owned.Ok? ==> forall d :: d in owned.value <==> d in reply.value.body.value.domains
    {
      calls := calls + [LoginCall(config.username, config.password)];
      if reply.Broken? {
        return Err(Network(reply.reason));
      }
      var cookies := reply.value.cookies;
      for i := 0 to |cookies|
        invariant cookie == CapturedCookie(cookies[..i], old(cookie))
        invariant calls == old(calls) + [LoginCall(config.username, config.password)]
      {
        if cookies[i].name == SessionCookieName {
          cookie := Some(cookies[i]);
        }
        assert cookies[..i + 1][..i] == cookies[..i];
      }
      assert cookies[..|cookies|] == cookies;
      var body := reply.value.body;
      if body.Broken? {
        return Err(Network(body.reason));
      }
      if !body.value.succeeded {
        return Err(LoginRejected);
      }
      var names := body.value.domains;
      var domains: map<string, bool> := map[];
      for i := 0 to |names|
        invariant domains == OwnedDomains(names[..i])
        invariant calls == old(calls) + [LoginCall(config.username, config.password)]
      {
        domains := domains[names[i] := true];
        assert names[..i + 1][..i] == names[..i];
      }
      assert names[..|names|] == names;
      return Ok(domains);
    }

    /** Fetches the DNS listing and updates every address record of the
        configured domain to `ip`, stopping at the first unsuccessful reply. */
    method UpdateDns(ip: string, listing: Reply<Listing>, replies: nat -> Reply<PutBody>) returns (outcome: Outcome)
      modifies this`calls
      ensures var step := UpdateStep(config.domain, ip, cookie, listing, replies);
        calls == old(calls) + step.events && outcome == step.outcome
    {
      if cookie.None? {
        return Fatal(NoSession);
      }
      var session := cookie.value;
      calls := calls + [ListDns(session)];
      if listing.Broken? {
        return Fatal(Network(listing.reason));
      }
      var domains, name := listing.value.domains, config.domain;
      ghost var start := old(calls) + [ListDns(session)];
      var sent: nat := 0;  // update calls issued so far, all of them successful
      for i := 0 to |domains|
        invariant sent == |Targets(domains[..i], name)|
        invariant calls == start + Puts(Targets(domains[..i], name), ip, session)
        invariant AllSucceeded(replies, sent)
      {
        TargetsStep(domains, name, i);
        var d := domains[i];
        if d.domainName != name {
          continue;
        }
        ghost var done := Targets(domains[..i], name);
        assert calls == start + Puts(done, ip, session) + Puts(EntryTargets(d.entries[..0]), ip, session);
        for j := 0 to |d.entries|
          invariant sent == |done| + |EntryTargets(d.entries[..j])|
          invariant calls == start + Puts(done, ip, session) + Puts(EntryTargets(d.entries[..j]), ip, session)
          invariant AllSucceeded(replies, sent)
        {
          EntryTargetsStep(d.entries, j);
          var e := d.entries[j];
          if e.recordType != AddressRecord {
            continue;
          }
          PutsSnoc(start + Puts(done, ip, session), EntryTargets(d.entries[..j]), e.id, ip, session);
          calls := calls + [PutEntry(e.id, ip, session)];
          var reply := replies(sent);
          if !(reply.Delivered? && reply.value.succeeded) {
            FailureEndsUpdate(old(calls), name, ip, session, listing.value, i, j, replies, sent);
            return Fatal(PutError(reply));
          }
          AllSucceededStep(replies, sent);
          sent := sent + 1;
        }
        assert d.entries[..|d.entries|] == d.entries;
        PutsExtend(start, done, EntryTargets(d.entries), ip, session);
      }
      assert domains[..|domains|] == domains;
      SuccessEndsUpdate(old(calls), name, ip, session, listing.value, replies);
      return Done;
    }

    /** One run: stop if the address is unchanged, otherwise log in, check
        that the configured domain is owned, update its address records, and
        only then record and write the new address. */
    method Run(resolved: Reply<string>, login: Reply<LoginResponse>, listing: Reply<Listing>,
               replies: nat -> Reply<PutBody>, writeError: Option<string>) returns (outcome: Outcome)
      modifies this`config, this`cookie, this`calls
      ensures var run := Reconcile(old(config), old(cookie), resolved, login, listing, replies, writeError);
        calls == old(calls) + run.events && config == run.config && cookie == run.cookie && outcome == run.outcome
    {
      if resolved.Broken? {
        return Fatal(Network(resolved.reason));
      }
      var ip := resolved.value;
      if ip == config.ip {
        return Done;
      }
      var domains := Login(login);
      assert cookie == LoginStep(old(cookie), login).cookie && domains == LoginStep(old(cookie), login).owned;
      if domains.Err? {
        return Fatal(domains.error);
      }
      if !(config.domain in domains.value && domains.value[config.domain]) {
        return Fatal(DomainNotOwned);
      }
      ghost var step := UpdateStep(config.domain, ip, cookie, listing, replies);
      ghost var loginCall := [LoginCall(config.username, config.password)];
      outcome := UpdateDns(ip, listing, replies);
      assert old(calls) + loginCall + step.events == old(calls) + (loginCall + step.events);
      assert old(calls) + loginCall + step.events + [WriteConfig(config.(ip := ip))] ==
        old(calls) + (loginCall + step.events + [WriteConfig(config.(ip := ip))]);
      if outcome.Fatal? {
        return;
      }
      config := config.(ip := ip);
      calls := calls + [WriteConfig(config)];
      if writeError.Some? {
        return Fatal(WriteFailed(writeError.value));
      }
      return Done;
    }
  }
}
