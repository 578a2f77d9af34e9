/** The login step: which session cookie the program keeps, and which domains
    the account owns. */
module Session {
  import opened Wire

  /** No cookie after position `k` carries the session cookie's name. */
  ghost predicate NoLaterSession(cookies: seq<Cookie>, k: int)
  {
    forall l :: 0 <= l < |cookies| && k < l ==> cookies[l].name != SessionCookieName
  }

  /** The cookie held after scanning `cookies` in order, starting from `prior`
      and replacing it with every cookie named `hoverauth`: the last such
      cookie wins, and with none the prior value stays. */
  function CapturedCookie(cookies: seq<Cookie>, prior: Option<Cookie>): Option<Cookie>
  {
    if cookies == [] then prior
    else
      var last := cookies[|cookies| - 1];
      if last.name == SessionCookieName then Some(last)
      else CapturedCookie(cookies[..|cookies| - 1], prior)
  }

  /** The cookie kept is the last one named `hoverauth`; with none, the prior
      value stays. */
  lemma {:induction false} CapturedIsLastSession(cookies: seq<Cookie>, prior: Option<Cookie>)
    ensures NoLaterSession(cookies, -1) ==> CapturedCookie(cookies, prior) == prior
    ensures forall k :: 0 <= k < |cookies| && cookies[k].name == SessionCookieName && NoLaterSession(cookies, k) ==>
      CapturedCookie(cookies, prior) == Some(cookies[k])
  {
    if cookies != [] {
      var n := |cookies| - 1;
      var front := cookies[..n];
      CapturedIsLastSession(front, prior);
      if cookies[n].name != SessionCookieName {
        assert CapturedCookie(cookies, prior) == CapturedCookie(front, prior);
        assert NoLaterSession(cookies, -1) ==> NoLaterSession(front, -1) by {
          assert forall l :: 0 <= l < n ==> front[l] == cookies[l];
        }
        forall k | 0 <= k < |cookies| && cookies[k].name == SessionCookieName && NoLaterSession(cookies, k)
          ensures CapturedCookie(cookies, prior) == Some(cookies[k])
        {
          assert k < n && front[k] == cookies[k];
          assert NoLaterSession(front, k) by {
            assert forall l :: 0 <= l < n ==> front[l] == cookies[l];
          }
        }
      } else {
        forall k | 0 <= k < |cookies| && cookies[k].name == SessionCookieName && NoLaterSession(cookies, k)
          ensures k == n
        {
        }
      }
    }
  }

  /** The owned-domain map built from the names listed in the login reply:
      every listed name maps to true, and nothing else is in it. */
  function OwnedDomains(names: seq<string>): (owned: map<string, bool>)
    ensures forall d :: d in owned <==> d in names
    ensures forall d :: d in owned ==> owned[d]
  {
    if names == [] then map[]
    else OwnedDomains(names[..|names| - 1])[names[|names| - 1] := true]
  }

  /** A lookup in the owned-domain map; an absent name reads as false. */
  predicate Owns(owned: map<string, bool>, domain: string)
  {
    domain in owned && owned[domain]
  }

  /** The session cookie held after the login call and what the call returns. */
  datatype LoginOutcome = LoginOutcome(cookie: Option<Cookie>, owned: Result<map<string, bool>>)

  /** The login step given the registrar's reply: the cookie is captured as
      soon as the reply arrives, before its body is read or its `succeeded`
      flag looked at. */
  function LoginStep(prior: Option<Cookie>, reply: Reply<LoginResponse>): LoginOutcome
  {
    match reply
    case Broken(reason) => LoginOutcome(prior, Err(Network(reason)))
    case Delivered(response) =>
      var held := CapturedCookie(response.cookies, prior);
      match response.body
      case Broken(reason) => LoginOutcome(held, Err(Network(reason)))
      case Delivered(body) =>
        if !body.succeeded then LoginOutcome(held, Err(LoginRejected))
        else LoginOutcome(held, Ok(OwnedDomains(body.domains)))
  }

  /** The configured domain passes the ownership check exactly when the login
      reply listed it. */
  lemma OwnsIffListed(names: seq<string>, domain: string)
    ensures Owns(OwnedDomains(names), domain) <==> domain in names
  {
  }
}
