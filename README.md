# hoverDDNS reconciliation, modelled in Dafny

hoverDDNS is a small dynamic-DNS client for the Hover registrar. Each run does the following:

- It resolves the machine's public address and compares it with the address stored in its configuration file. If they are the same, it stops.
- Otherwise it logs in to Hover. It keeps the `hoverauth` session cookie and builds the set of domains the account owns.
- It checks that the configured domain is in that set.
- It fetches the DNS listing. Then it sends one `PUT` per address record (`type == "A"`) of every listed domain whose name is the configured one, with the new address as its content. It stops at the first reply that is not a success.
- Only when every update has succeeded does it store the new address and write the configuration back.

The model keeps that workflow and treats everything the program exchanges with the outside world as an input:

- the resolved address;
- the login reply (its cookies and its decoded body);
- the decoded DNS listing;
- the reply to each `PUT`, as a function from the position of the `PUT` to its reply;
- whether writing the configuration file fails.

A failed transport, read or decode step is a `Broken(reason)` reply. A run produces:

- the ordered log of calls it issued (login, listing, each `PUT` with its ID, content and cookie, and the configuration write);
- the final configuration and session cookie;
- a `Done` or `Fatal(error)` outcome, where `Fatal` stands for the program's `log.Fatal` exit.

Modules:

- `Wire` holds the data: the configuration, cookies, the reply bodies, the call log `Event`, the errors with the text each one logs, and the run outcome.
- `Session` covers the login step: which cookie is captured (`CapturedCookie`), the owned-domain map (`OwnedDomains`), the lookup `Owns`, and the whole step as a function (`LoginStep`).
- `Selection` decides which entries are updated (`Targets`, a domain-by-domain, entry-by-entry filter). It also gives a second, independent definition of the same selection, as a filter over the flattened listing.
- `Workflow` gives the whole run as a function:
  - `UpdateStep` is the update procedure, with the fail-fast position `FirstFailure`;
  - `Reconcile` is the complete run.
- `Driver` holds the imperative program. The class `Reconciler` keeps the global state (`config`, `cookie`, and the log `calls`) and has three methods:
  - `Login` is the cookie loop and the map-building loop;
  - `UpdateDns` is the nested filtering loop with `continue` and early return;
  - `Run` is the decision logic of `main`.

  Each method is proved to produce exactly the log, state and outcome of the matching function.
- `Properties` states what a run guarantees, as lemmas over `Reconcile`.

## Model

| member | source | states |
|---|---|---|
| Session.CapturedIsLastSession | main.go:137-141 | The cookie kept after login is the last response cookie named `hoverauth`. With no such cookie, the cookie held before the login stays. |
| Session.OwnedDomains | main.go:156-161 | The owned-domain map holds exactly the names in the login reply's `domains`, no more and no fewer, and maps each of them to true. |
| Session.OwnsIffListed | main.go:76 | The ownership lookup succeeds for the configured domain exactly when the login reply listed it. An absent key reads as false. |
| Driver.Reconciler.constructor | main.go:20-22 | A fresh program holds the loaded configuration, no session cookie, and an empty call log. |
| Driver.Reconciler.Login | main.go:117-161 | Logging in records one login call with the stored credentials. The cookie is captured from the reply's cookies before the body is read or its `succeeded` flag checked. A transport or decode failure, a `succeeded == false` body and a success each give the same result as `LoginStep`. On success the returned map's keys are exactly the listed domains. |
| Driver.Reconciler.UpdateDns | main.go:164-253 | The nested loop issues exactly the calls of `UpdateStep`, in order, and returns its outcome: the listing call with the session cookie, then one update per selected ID up to and including the first unsuccessful reply, ending with that reply's error, or `Done` after all of them. Without a session cookie it issues nothing and fails. |
| Driver.Reconciler.Run | main.go:63-84 | A run changes the log, the configuration and the cookie exactly as `Reconcile` says, and returns its outcome: fast path, login, ownership check, update, then storing the new address and writing the configuration. |
| Selection.TargetsMembers | main.go:207-220 | An ID is selected for update exactly when some entry of type `A` with that ID sits in some listed domain whose name is the configured domain. |
| Selection.EntryTargetsMembers | main.go:212-220 | Within one domain, an ID is selected exactly when some entry with that ID has type `A`. |
| Selection.TargetsAppend | main.go:207-210 | Selection over a listing split in two is the selection over the first part followed by the selection over the second. Every matching domain is visited and contributes, not only the first one. |
| Selection.TargetsIsFilteredFlattening | main.go:207-220 | The nested walk with its two `continue` filters selects the same IDs, in the same order and with the same duplicates, as filtering the flattened (domain name, entry) list on name and type. |
| Workflow.FirstFailure | main.go:246-248 | The position where the update loop stops: every earlier reply was a success, and the reply at that position (if it is before the end) was not. |
| Workflow.FailureEndsUpdate | main.go:246-248 | When the update of entry `j` of matching domain `i` is the first unsuccessful one, the calls issued so far are exactly the update step's calls, and the step ends with that reply's error. |
| Workflow.SuccessEndsUpdate | main.go:207-252 | When every selected update succeeds, the step has issued the listing call and one update per selected ID, and it ends without error. |
| Properties.UnchangedAddressIsNoOp | main.go:67-69 | If the resolved address equals the stored one, the run issues no call, writes nothing, keeps configuration and cookie, and succeeds. |
| Properties.RejectedLoginStopsBeforeDns | main.go:71-74 | A login reply with `succeeded == false` ends the run with "Could not login" after the login call alone. The stored address is unchanged, and the cookie from that reply is still captured. |
| Properties.UnownedDomainStopsBeforeDns | main.go:76-78 | A configured domain missing from the login reply ends the run with "Domain not owned" before any DNS listing or update call. |
| Properties.RunCalls | main.go:63-84 | The calls of a run are the following. The fast path issues none. A failed login or ownership check issues the login call alone. Otherwise the run issues the login call, then the update step's calls, then the configuration write only if the update step ended well. After login the run holds the login step's cookie. |
| Properties.UpdateStepCalls | main.go:207-230 | The update step issues the listing call first and once, followed only by update calls. Their IDs are a prefix of the selected IDs, and all of them when the step succeeds. Every call carries the session cookie, and every update carries the new address. |
| Properties.UpdatesFollowSelection | main.go:207-230 | Over a whole run, the updated IDs are a prefix of the selected IDs, and they are all of them when a run with a new address succeeds. Every listing and update call carries the cookie the run holds, and every update carries the resolved address. |
| Properties.OnlyAddressRecordsOfDomainAreUpdated | main.go:207-220 | No run ever updates an ID that is not an `A` entry of a listed domain with the configured name. |
| Properties.FirstRejectionStopsRun | main.go:246-248 | If the reply to update `k` is the first unsuccessful one, the run issues exactly the login, the listing and updates `0..k`, fails with that reply's error message, and leaves the stored address unchanged. |
| Properties.AddressStoredIffUpdateSucceeded | main.go:80-84 | `r.config` is the in-memory global `config`, whose `IP` is set at main.go:84 before the file is written. Its address changes only to the resolved one. It changes exactly when login, ownership and cookie held and every selected update succeeded, and exactly when the run's last call is the configuration write. With a working write, the run ends well exactly then, and only then does the configuration file hold the new address. A failed write still leaves the in-memory address changed. |
| Properties.NothingToUpdateStillStoresAddress | main.go:207-252 | A listing in which the configured domain has no `A` entry, including one where the domain is absent, still counts as success: the new address is stored and written. |
| Properties.ListingFlagIgnored | main.go:203-207 | The listing's own `succeeded` flag makes no difference to any run. |
| Properties.SessionCookieOnEveryDnsCall | main.go:137-141 | After login the run holds the cookie captured from the login reply (the prior one if the reply never arrived), and every listing and update call carries that same cookie. |
| Properties.MissingSessionCookieStopsBeforeListing | main.go:190 | With no session cookie after a successful login, the listing request cannot be built: the run stops after the login call with the nil-dereference failure. |
| Properties.SecondRunIsNoOp | main.go:67-69 | After a successful run, a second run that resolves the same address calls nothing and changes nothing. |
| Properties.ExampleRun | main.go:207-252 | Stored 1.2.3.4, resolved 5.6.7.8, owned example.com with an `A` entry r1 and a `CNAME` entry r2: the run issues exactly one update, to r1 with 5.6.7.8, and then stores 5.6.7.8. |
| Properties.ExampleUnownedDomain | main.go:76-78 | Configured other.com while only example.com is owned: the run fails with "Domain not owned" after the login call alone. |

## Left out

- Resolving the public address (`getIP`, main.go:94-115) is an HTTP GET plus a JSON decode. Its result, or its failure, is an input of the run.
- HTTP transport, request construction, form and query encoding, and JSON decoding are library calls. Any failure of them appears as a `Broken(reason)` reply at the call site where the program checks it. The reason text is an input, not derived.
- The per-update `http.NewRequest` failure (main.go:222-225) is not modelled. It could only come from an unparsable entry ID. The program would then stop before sending any `PUT` for that entry, so it cannot be shown as a `Broken` reply: the model would log a `PutEntry` call that was never issued. Every entry ID is treated as one the request can be built for.
- Loading and creating the configuration file (main.go:39-61) is file-system I/O and is not part of this model. The run starts from a loaded `Config`.
- `json.MarshalIndent` cannot fail on this plain structure, so that error path (main.go:85-88) is left out. The file write (main.go:89-91) is the `WriteConfig` event, with its failure an input.
- `log.Fatal` ends the process. Here it is the `Fatal(error)` outcome, and no state changes after it.
- `defer resp.Body.Close()` is resource handling and is not modelled.
- The unused sqlite import and the unused listing fields (`is_default`, `can_revert`, `active`, `content`) are not modelled. The entry's `name` and the domain's `id` are kept on `Entry` and `Domain` only as data; no operation reads them.
- `fmt.Errorf(success.Error)` treats the registrar's message as a format string. The model reports the message verbatim, so format verbs in it are not interpreted.
- The listing decodes into slices of pointers (main.go:178, 183), so a JSON `null` domain or entry becomes a nil pointer. The program then panics: on reading the name of a null domain (main.go:208), and on reading the type of a null entry in a matching domain (main.go:218), with the earlier updates already sent. `Listing` and `Domain` hold plain values, so the model cannot express a null element and does not model that panic. It is not a decode failure, so `Broken` does not cover it either.
- A nil session cookie makes the Go runtime panic. The model treats that panic as an ordinary failed run (`NoSession`), whose text is the runtime's message. The stack trace and exit code are not modelled.
- Concurrency does not arise, because the program is sequential.
