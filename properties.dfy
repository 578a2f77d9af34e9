/** What a reconciliation run guarantees, stated over the run function
    `Reconcile` that `Driver.Reconciler.Run` is proved to follow. */
module Properties {
  import opened Wire
  import opened Session
  import opened Selection
  import opened Workflow

  /** IDs of the update calls in a log, in order. */
  function PutIds(events: seq<Event>): seq<string>
  {
    if events == [] then []
    else (if events[0].PutEntry? then [events[0].id] else []) + PutIds(events[1..])
  }

  lemma {:induction false} PutIdsAppend(a: seq<Event>, b: seq<Event>)
    ensures PutIds(a + b) == PutIds(a) + PutIds(b)
  {
    if a != [] {
      assert (a + b)[1..] == a[1..] + b;
      PutIdsAppend(a[1..], b);
    } else {
      assert a + b == b;
    }
  }

  /** The update calls for `ids` are calls for exactly `ids`, in order. */
  lemma {:induction false} PutIdsOfPuts(ids: seq<string>, ip: string, session: Cookie)
    ensures PutIds(Puts(ids, ip, session)) == ids
  {
    if ids != [] {
      var n := |ids| - 1;
      PutIdsOfPuts(ids[..n], ip, session);
      PutsAppend(ids[..n], [ids[n]], ip, session);
      assert ids == ids[..n] + [ids[n]];
      PutIdsAppend(Puts(ids[..n], ip, session), Puts([ids[n]], ip, session));
    }
  }

  /** The login reply that lets the run past the login and the ownership
      check: delivered, decoded, successful, and listing the configured domain. */
  ghost predicate Authorised(config: Config, login: Reply<LoginResponse>)
  {
    login.Delivered? && login.value.body.Delivered? && login.value.body.value.succeeded &&
    config.domain in login.value.body.value.domains
  }

  /** Fast path: when the resolved address is the stored one, nothing is
      called, nothing is written, and the run succeeds. */
  lemma UnchangedAddressIsNoOp(config: Config, cookie: Option<Cookie>, login: Reply<LoginResponse>,
                               listing: Reply<Listing>, replies: nat -> Reply<PutBody>, writeError: Option<string>)
    ensures Reconcile(config, cookie, Delivered(config.ip), login, listing, replies, writeError) ==
      RunResult([], config, cookie, Done)
  {
  }

  /** A login reply that says it did not succeed ends the run with "Could
      not login" right after the login call; the cookie it carried is kept. */
  lemma RejectedLoginStopsBeforeDns(config: Config, cookie: Option<Cookie>, ip: string, cookies: seq<Cookie>,
                                    names: seq<string>, listing: Reply<Listing>, replies: nat -> Reply<PutBody>,
                                    writeError: Option<string>)
    requires ip != config.ip
    ensures var login := Delivered(LoginResponse(cookies, Delivered(LoginBody(false, names))));
      var r := Reconcile(config, cookie, Delivered(ip), login, listing, replies, writeError);
      r == RunResult([LoginCall(config.username, config.password)], config, CapturedCookie(cookies, cookie),
                     Fatal(LoginRejected)) &&
      Message(r.outcome.error) == "Could not login"
  {
  }

  /** A configured domain missing from the login reply's list ends the run
      with "Domain not owned" before any DNS call. */
  lemma UnownedDomainStopsBeforeDns(config: Config, cookie: Option<Cookie>, ip: string, cookies: seq<Cookie>,
                                    names: seq<string>, listing: Reply<Listing>, replies: nat -> Reply<PutBody>,
                                    writeError: Option<string>)
    requires ip != config.ip && config.domain !in names
    ensures var login := Delivered(LoginResponse(cookies, Delivered(LoginBody(true, names))));
      var r := Reconcile(config, cookie, Delivered(ip), login, listing, replies, writeError);
      r == RunResult([LoginCall(config.username, config.password)], config, CapturedCookie(cookies, cookie),
                     Fatal(DomainNotOwned)) &&
      Message(r.outcome.error) == "Domain not owned"
  {
    OwnsIffListed(names, config.domain);
  }

  /** The listing and update calls in `events` all carry `session`, and the
      update calls all carry `ip` as their content. */
  ghost predicate CarriesSession(events: seq<Event>, ip: string, session: Option<Cookie>)
  {
    forall e :: e in events ==>
      (e.ListDns? ==> session == Some(e.session)) && (e.PutEntry? ==> e.content == ip && session == Some(e.session))
  }

  /** `events` holds only listing and update calls. */
  ghost predicate OnlyDnsCalls(events: seq<Event>)
  {
    forall e :: e in events ==> e.ListDns? || e.PutEntry?
  }

  /** The update step's calls: the listing, then updates for a prefix of the
      selected IDs (all of them when the step succeeds), every one with the
      step's address and cookie. */
  lemma UpdateStepCalls(name: string, ip: string, session: Cookie, l: Listing, replies: nat -> Reply<PutBody>)
    ensures var step := UpdateStep(name, ip, Some(session), Delivered(l), replies);
      && PutIds(step.events) <= Targets(l.domains, name)
      && (step.outcome == Done ==> PutIds(step.events) == Targets(l.domains, name))
      && step.events == [ListDns(session)] + Puts(PutIds(step.events), ip, session)
      && CarriesSession(step.events, ip, Some(session))
      && OnlyDnsCalls(step.events)
  {
    var targets := Targets(l.domains, name);
    var n := FirstFailure(replies, |targets|);
    var ids := if n < |targets| then targets[..n + 1] else targets;
    var step := UpdateStep(name, ip, Some(session), Delivered(l), replies);
    assert step.events == [ListDns(session)] + Puts(ids, ip, session);
    assert ids <= targets;
    PutIdsOfPuts(ids, ip, session);
    PutIdsAppend([ListDns(session)], Puts(ids, ip, session));
    assert PutIds([ListDns(session)]) == [];
    PutsCarrySession(ids, ip, session);
  }

  lemma PutsCarrySession(ids: seq<string>, ip: string, session: Cookie)
    ensures CarriesSession(Puts(ids, ip, session), ip, Some(session))
    ensures OnlyDnsCalls(Puts(ids, ip, session))
  {
    forall e | e in Puts(ids, ip, session)
      ensures e.PutEntry? && e.content == ip && e.session == session
    {
      var k :| 0 <= k < |ids| && Puts(ids, ip, session)[k] == e;
    }
  }

  /** The calls of a run that resolved `ip`: none on the fast path, the
      login call alone when login or the ownership check fails, and otherwise
      the login call, the update step's calls and, if the update step ended
      well, the configuration write. */
  lemma RunCalls(config: Config, cookie: Option<Cookie>, ip: string, login: Reply<LoginResponse>,
                 listing: Reply<Listing>, replies: nat -> Reply<PutBody>, writeError: Option<string>)
    ensures var r := Reconcile(config, cookie, Delivered(ip), login, listing, replies, writeError);
      var auth := LoginStep(cookie, login);
      var step := UpdateStep(config.domain, ip, auth.cookie, listing, replies);
      var loginCall := [LoginCall(config.username, config.password)];
      && r.cookie == (if ip == config.ip then cookie else auth.cookie)
      && (ip == config.ip ==> r.events == [])
      && (ip != config.ip && !(auth.owned.Ok? && Owns(auth.owned.value, config.domain)) ==> r.events == loginCall)
      && (ip != config.ip && auth.owned.Ok? && Owns(auth.owned.value, config.domain) ==>
            r.events == loginCall + step.events + (if step.outcome.Fatal? then [] else [WriteConfig(config.(ip := ip))])
            && (r.outcome == Done ==> step.outcome == Done))
  {
  }

  /** The update calls of any run are a prefix of the selected IDs, each one
      carries the resolved address and the session cookie the run holds, and
      a run that succeeds with a new address has updated every selected ID. */
  lemma UpdatesFollowSelection(config: Config, cookie: Option<Cookie>, ip: string,
                               login: Reply<LoginResponse>, l: Listing,
                               replies: nat -> Reply<PutBody>, writeError: Option<string>)
    ensures var r := Reconcile(config, cookie, Delivered(ip), login, Delivered(l), replies, writeError);
      && PutIds(r.events) <= Targets(l.domains, config.domain)
      && (r.outcome == Done && ip != config.ip ==> PutIds(r.events) == Targets(l.domains, config.domain))
      && CarriesSession(r.events, ip, r.cookie)
  {
    var r := Reconcile(config, cookie, Delivered(ip), login, Delivered(l), replies, writeError);
    var auth := LoginStep(cookie, login);
    var loginCall := [LoginCall(config.username, config.password)];
    RunCalls(config, cookie, ip, login, Delivered(l), replies, writeError);
    assert PutIds(loginCall) == [];
    if ip != config.ip && auth.owned.Ok? && Owns(auth.owned.value, config.domain) {
      var step := UpdateStep(config.domain, ip, auth.cookie, Delivered(l), replies);
      var tail := if step.outcome.Fatal? then [] else [WriteConfig(config.(ip := ip))];
      if auth.cookie.Some? {
        UpdateStepCalls(config.domain, ip, auth.cookie.value, l, replies);
        assert CarriesSession(r.events, ip, r.cookie) by {
          assert forall e :: e in r.events ==> e in loginCall || e in step.events || e in tail;
        }
      }
      assert PutIds(r.events) == PutIds(step.events) by {
        PutIdsAppend(loginCall, step.events);
        PutIdsAppend(loginCall + step.events, tail);
        assert PutIds(tail) == [];
      }
    }
  }

  /** No run ever updates an entry that is not an address record of a
      listed domain with the configured name. */
  lemma OnlyAddressRecordsOfDomainAreUpdated(config: Config, cookie: Option<Cookie>, ip: string,
                                             login: Reply<LoginResponse>, l: Listing,
                                             replies: nat -> Reply<PutBody>, writeError: Option<string>)
    ensures var r := Reconcile(config, cookie, Delivered(ip), login, Delivered(l), replies, writeError);
      forall id :: id in PutIds(r.events) ==> ListsAddressRecord(l.domains, config.domain, id)
  {
    var r := Reconcile(config, cookie, Delivered(ip), login, Delivered(l), replies, writeError);
    UpdatesFollowSelection(config, cookie, ip, login, l, replies, writeError);
    forall id | id in PutIds(r.events) ensures ListsAddressRecord(l.domains, config.domain, id) {
      TargetsMembers(l.domains, config.domain, id);
    }
  }

  /** Fail-fast: when the reply to the `k`-th update is the first that is not
      a success, the run ends with that reply's error after exactly `k + 1`
      updates, and the stored address is not touched. */
  lemma FirstRejectionStopsRun(config: Config, cookie: Option<Cookie>, ip: string, login: Reply<LoginResponse>,
                               l: Listing, replies: nat -> Reply<PutBody>, writeError: Option<string>, k: nat)
    requires ip != config.ip && Authorised(config, login)
    requires CapturedCookie(login.value.cookies, cookie).Some?
    requires k < |Targets(l.domains, config.domain)|
    requires AllSucceeded(replies, k) && !PutSucceeded(replies, k)
    ensures var r := Reconcile(config, cookie, Delivered(ip), login, Delivered(l), replies, writeError);
      var session := CapturedCookie(login.value.cookies, cookie).value;
      && r.outcome == Fatal(PutError(replies(k)))
      && r.events == [LoginCall(config.username, config.password), ListDns(session)] +
                     Puts(Targets(l.domains, config.domain)[..k + 1], ip, session)
      && r.config == config
      && (replies(k).Delivered? ==> Message(r.outcome.error) == replies(k).value.error)
  {
    OwnsIffListed(login.value.body.value.domains, config.domain);
    FirstFailureAt(replies, |Targets(l.domains, config.domain)|, k);
  }

  /** The in-memory configuration's address changes only to the resolved
      one, and it does so exactly when the DNS update got a success for every
      selected entry; the configuration write is then the run's last call,
      and a run whose write succeeds ends well exactly then. */
  lemma AddressStoredIffUpdateSucceeded(config: Config, cookie: Option<Cookie>, ip: string,
                                        login: Reply<LoginResponse>, listing: Reply<Listing>,
                                        replies: nat -> Reply<PutBody>, writeError: Option<string>)
    requires ip != config.ip
    ensures var r := Reconcile(config, cookie, Delivered(ip), login, listing, replies, writeError);
      && (r.config == config || r.config == config.(ip := ip))
      && (r.config.ip == ip <==>
            Authorised(config, login) && CapturedCookie(login.value.cookies, cookie).Some? &&
            listing.Delivered? && AllSucceeded(replies, |Targets(listing.value.domains, config.domain)|))
      && (r.config.ip == ip <==> r.events != [] && r.events[|r.events| - 1] == WriteConfig(r.config))
      && (writeError.None? ==> (r.outcome == Done <==> r.config.ip == ip))
  {
    var r := Reconcile(config, cookie, Delivered(ip), login, listing, replies, writeError);
    if Authorised(config, login) {
      OwnsIffListed(login.value.body.value.domains, config.domain);
      var session := CapturedCookie(login.value.cookies, cookie);
      if session.Some? && listing.Delivered? {
        var targets := Targets(listing.value.domains, config.domain);
        if AllSucceeded(replies, |targets|) {
          FirstFailureAt(replies, |targets|, |targets|);
        } else {
          var step := UpdateStep(config.domain, ip, session, listing, replies);
          assert step.outcome.Fatal? && step.events != [];
          UpdateStepCalls(config.domain, ip, session.value, listing.value, replies);
          assert r.events == [LoginCall(config.username, config.password)] + step.events;
          assert r.events[|r.events| - 1] in step.events;
        }
      }
    } else if login.Delivered? && login.value.body.Delivered? && login.value.body.value.succeeded {
      OwnsIffListed(login.value.body.value.domains, config.domain);
    }
  }

  /** A listing in which the configured domain has no address record (for
      instance because the domain is not listed at all) still counts as a
      successful update: the new address is stored. */
  lemma NothingToUpdateStillStoresAddress(config: Config, cookie: Option<Cookie>, ip: string,
                                          login: Reply<LoginResponse>, l: Listing, replies: nat -> Reply<PutBody>)
    requires ip != config.ip && Authorised(config, login)
    requires CapturedCookie(login.value.cookies, cookie).Some?
    requires Targets(l.domains, config.domain) == []
    ensures var r := Reconcile(config, cookie, Delivered(ip), login, Delivered(l), replies, None);
      var session := CapturedCookie(login.value.cookies, cookie).value;
      r.events == [LoginCall(config.username, config.password), ListDns(session),
                   WriteConfig(config.(ip := ip))] &&
      r.config == config.(ip := ip) && r.outcome == Done
  {
    OwnsIffListed(login.value.body.value.domains, config.domain);
    assert Puts([], ip, CapturedCookie(login.value.cookies, cookie).value) == [];
  }

  /** The listing's own `succeeded` flag makes no difference to a run. */
  lemma ListingFlagIgnored(config: Config, cookie: Option<Cookie>, resolved: Reply<string>,
                           login: Reply<LoginResponse>, domains: seq<Domain>,
                           replies: nat -> Reply<PutBody>, writeError: Option<string>)
    ensures Reconcile(config, cookie, resolved, login, Delivered(Listing(true, domains)), replies, writeError) ==
            Reconcile(config, cookie, resolved, login, Delivered(Listing(false, domains)), replies, writeError)
  {
  }

  /** The session cookie is captured from the login reply as soon as it
      arrives, whatever its body says, and every listing and update call of
      the run carries that same cookie. */
  lemma SessionCookieOnEveryDnsCall(config: Config, cookie: Option<Cookie>, ip: string,
                                    login: Reply<LoginResponse>, listing: Reply<Listing>,
                                    replies: nat -> Reply<PutBody>, writeError: Option<string>)
    requires ip != config.ip
    ensures var r := Reconcile(config, cookie, Delivered(ip), login, listing, replies, writeError);
      && (login.Delivered? ==> r.cookie == CapturedCookie(login.value.cookies, cookie))
      && (login.Broken? ==> r.cookie == cookie)
      && CarriesSession(r.events, ip, r.cookie)
  {
    if listing.Delivered? {
      UpdatesFollowSelection(config, cookie, ip, login, listing.value, replies, writeError);
    }
  }

  /** Without a session cookie after login the listing request cannot be
      built: the run stops before any DNS call. */
  lemma MissingSessionCookieStopsBeforeListing(config: Config, cookie: Option<Cookie>, ip: string,
                                               login: Reply<LoginResponse>, listing: Reply<Listing>,
                                               replies: nat -> Reply<PutBody>, writeError: Option<string>)
    requires ip != config.ip && Authorised(config, login)
    requires CapturedCookie(login.value.cookies, cookie).None?
    ensures Reconcile(config, cookie, Delivered(ip), login, listing, replies, writeError) ==
      RunResult([LoginCall(config.username, config.password)], config, None, Fatal(NoSession))
  {
    OwnsIffListed(login.value.body.value.domains, config.domain);
  }

  /** Repeated runs are idempotent: after a successful run, a run that
      resolves the same address calls nothing and changes nothing. */
  lemma SecondRunIsNoOp(config: Config, cookie: Option<Cookie>, ip: string, login: Reply<LoginResponse>,
                        listing: Reply<Listing>, replies: nat -> Reply<PutBody>, writeError: Option<string>,
                        login2: Reply<LoginResponse>, listing2: Reply<Listing>, replies2: nat -> Reply<PutBody>,
                        writeError2: Option<string>)
    ensures var first := Reconcile(config, cookie, Delivered(ip), login, listing, replies, writeError);
      first.outcome == Done ==>
        Reconcile(first.config, first.cookie, Delivered(ip), login2, listing2, replies2, writeError2) ==
        RunResult([], first.config, first.cookie, Done)
  {
  }

  /** Worked example: stored address 1.2.3.4, resolved 5.6.7.8, the account
      owns example.com, whose listing holds an address record r1 and a CNAME
      record r2: one update, to r1 with the new address, then the write. */
  lemma ExampleRun(session: Cookie, replies: nat -> Reply<PutBody>)
    requires session.name == SessionCookieName && PutSucceeded(replies, 0)
    ensures var config := Config("user", "secret", "example.com", "1.2.3.4");
      var login := Delivered(LoginResponse([session], Delivered(LoginBody(true, ["example.com"]))));
      var listing := Listing(true, [Domain("example.com", "d1",
                                          [Entry("r1", "@", "A"), Entry("r2", "www", "CNAME")])]);
      var r := Reconcile(config, None, Delivered("5.6.7.8"), login, Delivered(listing), replies, None);
      r == RunResult([LoginCall("user", "secret"), ListDns(session), PutEntry("r1", "5.6.7.8", session),
                      WriteConfig(config.(ip := "5.6.7.8"))], config.(ip := "5.6.7.8"), Some(session), Done)
  {
    var entries := [Entry("r1", "@", "A"), Entry("r2", "www", "CNAME")];
    var domains := [Domain("example.com", "d1", entries)];
    assert entries[..1] == [Entry("r1", "@", "A")] && entries[..1][..0] == [];
    assert EntryTargets(entries) == ["r1"];
    assert domains[..0] == [];
    assert Targets(domains, "example.com") == ["r1"];
    OwnsIffListed(["example.com"], "example.com");
    assert [session][..0] == [];
    FirstFailureAt(replies, 1, 1);
  }

  /** Worked example: a configured domain the account does not own ends the
      run with "Domain not owned" and no DNS call. */
  lemma ExampleUnownedDomain(cookies: seq<Cookie>, listing: Reply<Listing>, replies: nat -> Reply<PutBody>)
    ensures var config := Config("user", "secret", "other.com", "1.2.3.4");
      var login := Delivered(LoginResponse(cookies, Delivered(LoginBody(true, ["example.com"]))));
      var r := Reconcile(config, None, Delivered("5.6.7.8"), login, listing, replies, None);
      r.events == [LoginCall("user", "secret")] && r.config == config && r.outcome == Fatal(DomainNotOwned)
  {
    OwnsIffListed(["example.com"], "other.com");
  }
}
