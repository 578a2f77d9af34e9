/** The values the reconciler exchanges with its surroundings: the stored
    configuration, the registrar's replies (already decoded), the calls the
    program issues, and the errors that end a run. */
module Wire {

  datatype Option<T> = None | Some(value: T)

  /** What one remote call gives back: the decoded reply, or a failure of the
      transport, of reading the body or of decoding it (with its message). */
  datatype Reply<T> = Delivered(value: T) | Broken(reason: string)

  /** The persisted settings; `ip` is the last address applied successfully. */
  datatype Config = Config(username: string, password: string, domain: string, ip: string)

  datatype Cookie = Cookie(name: string, value: string)

  /** Name of the registrar's session cookie. */
  const SessionCookieName: string := "hoverauth"

  /** Record type the reconciler rewrites. */
  const AddressRecord: string := "A"

  /** Body of the login reply. */
  datatype LoginBody = LoginBody(succeeded: bool, domains: seq<string>)

  /** The login reply: its cookies arrive with the headers, before the body is
      read, so they are there even when the body cannot be decoded. */
  datatype LoginResponse = LoginResponse(cookies: seq<Cookie>, body: Reply<LoginBody>)

  datatype Entry = Entry(id: string, name: string, recordType: string)

  datatype Domain = Domain(domainName: string, id: string, entries: seq<Entry>)

  /** Body of the DNS listing reply. */
  datatype Listing = Listing(succeeded: bool, domains: seq<Domain>)

  /** Body of the reply to one record update. */
  datatype PutBody = PutBody(succeeded: bool, error: string)

  /** Every remote call the run issues, and the write of the configuration file. */
  datatype Event =
    | LoginCall(username: string, password: string)
    | ListDns(session: Cookie)
    | PutEntry(id: string, content: string, session: Cookie)
    | WriteConfig(saved: Config)

  datatype Error =
    | Network(reason: string)       // transport, read or decode failure
    | LoginRejected                 // the login reply says it did not succeed
    | DomainNotOwned                // the configured domain is not in the owned set
    | NoSession                     // no session cookie to attach: the request cannot be built
    | UpdateRejected(message: string) // the registrar refused one record update
    | WriteFailed(reason: string)   // the configuration file could not be written

  /** The text the program logs before it stops. */
  function Message(e: Error): string
  {
    match e
    case Network(reason) => reason
    case LoginRejected => "Could not login"
    case DomainNotOwned => "Domain not owned"
    case NoSession => "runtime error: invalid memory address or nil pointer dereference"
    case UpdateRejected(message) => message
    case WriteFailed(reason) => reason
  }

  /** How a run ends: normally, or through a fatal error. */
  datatype Outcome = Done | Fatal(error: Error)

  datatype Result<T> = Ok(value: T) | Err(error: Error)
}
