# acme-dns-tiny client and pubspec/config scripts, modelled in Dafny

This project models the certificate client `automation/acme_certs.py` and three small
YAML scripts of the same repository. `get_crt` obtains a TLS certificate from an ACME
certificate authority (RFC 8555) by answering `dns-01` challenges with TXT records at a
DNS provider.

The client is modelled stage by stage:

- the URL-safe base64 of `_base64`, the hex handling of the account key's exponent and
  modulus, the JWK, and its RFC 7638 thumbprint;
- the signed-request transport `_send_signed_request`: the nonce, the protected header,
  the JWS envelope, and the bounded retry with doubling back-off;
- account registration and contact reconciliation;
- order creation from the CSR's domains;
- each authorization: the TXT record is created with retries, its propagation is awaited,
  the challenge is triggered, the status is polled, and the record is deleted in `finally`;
- finalization, the `Retry-After` wait, and the download.

Every step is a pure function that returns a `Trace.Run`. A run is the list of effects
the step would cause (TXT creations, lookups and deletions, nonce fetches, POST attempts,
sleeps) together with how the step ended: a value, `sys.exit(n)`, or an uncaught
exception (`Outcomes.Result`). The network, the resolver and the clock are replaced by
functions from the attempt number to the answer. SHA-256, the RSA signature and
`json.dumps` are function-typed parameters.

The YAML scripts are modelled on documents of the `Json` datatype:

- `add-dependency-overrides.py` and `tools/add_dependency_overrides.py` merge
  `dependency-overrides.yaml` into the `dependency_overrides` section of `pubspec.yaml`
  (module `Overrides`);
- `add_dependency_overrides.py` copies `dependencies` into `dependency_overrides` and pins
  the `at_server.git` dependencies to a branch (module `Pinning`);
- `at_secondary/at_secondary_server/config/generate_config.py` writes dotted property
  keys into `config-base.yaml` (module `Config`).

Some behaviours of the code are easy to misread:

- Root mode splits `_acme-challenge.example.com` into the name `_acme-challenge` and the
  zone `example.com`. The name is the first label, never empty.
- The exit-4 path deletes the TXT record twice. It is deleted once before `sys.exit(4)`,
  and once more in `finally`, which also runs for `SystemExit`.
- A trigger that fails at lines 305-308 leaves the record in place, because the `try`
  begins only at line 309. Deletion is therefore not guaranteed on every path.
- In both overrides scripts, the checks of lines 25-30 / 26-30 only print. Execution
  continues, and the file access that follows raises.

## Model

| member | source | states |
|---|---|---|
| Text.SplitJoin | automation/acme_certs.py:222 | joining the parts of `s.split(sep)` with `sep` gives back `s`, for any limit |
| Text.Split | automation/acme_certs.py:60 | a split has at least one part, and at most `maxsplit + 1` when a limit is given |
| Text.SplitWhole | automation/acme_certs.py:60 | the text stays in one piece exactly when it holds no separator or the limit is 0 |
| Text.Join | automation/acme_certs.py:222 | the joined text is as long as the parts plus one separator between each two, and starts with the first part |
| Text.SplitTwoAgrees | automation/acme_certs.py:60 | `split(".", 2)` has three parts exactly when the unlimited split has at least three, and then agrees with it on the first two |
| Text.SplitPartsFree | automation/acme_certs.py:60 | every part of a split except the last holds no separator |
| Text.SplitLabels | automation/acme_certs.py:60 | three dot-free labels joined by dots split back into the three labels |
| Text.FindFirst | automation/acme_certs.py:184 | `find` returns the first occurrence, and nothing exactly when the separator is absent |
| Base64Url.EncodeShape | automation/acme_certs.py:38-40 | `_base64` output is URL-safe, holds no `=`, and has length ceil(4n/3) |
| Base64Url.Encode | automation/acme_certs.py:38-40 | `_base64` is the padded URL-safe encoding with its trailing `=` removed: a prefix of it, not ending in `=`, and only `=` was cut |
| Base64Url.Decode | automation/acme_certs.py:38-40 | partner of `Encode`: URL-safe text decodes exactly when its length is not 1 more than a multiple of 4, to three octets per four characters |
| Base64Url.RoundTrip | automation/acme_certs.py:38-40 | decoding the output of `_base64` gives back the octets (RFC 4648 section 5 without padding) |
| Base64Url.Injective | automation/acme_certs.py:38-40 | different octet strings never share an encoding |
| Base64Url.DigestLength | automation/acme_certs.py:210 | a 32-octet SHA-256 digest encodes to 43 characters |
| Bytes.Utf8Append | automation/acme_certs.py:140 | UTF-8 encoding of a concatenation is the concatenation of the encodings |
| Hex.ToHex | automation/acme_certs.py:198 | `"{0:x}".format(n)` has no leading zero and denotes `n` |
| Hex.EvenHex | automation/acme_certs.py:198-199 | the padded exponent text has even length, denotes the exponent, and never starts with `00` |
| Hex.Unhexlify | automation/acme_certs.py:204 | `unhexlify` succeeds exactly on even-length hex text |
| Hex.PairsValue | automation/acme_certs.py:204 | pairing hex digits into octets keeps the big-endian value |
| Hex.Pairs | automation/acme_certs.py:204 | `unhexlify` of an even-length hex text gives half as many octets |
| Hex.HexValue | automation/acme_certs.py:198-199 | a hex text of n digits denotes a number below 16^n |
| Hex.ExponentOctets | automation/acme_certs.py:204 | the exponent octets are minimal, denote the exponent, and are what `unhexlify` of the padded hex gives |
| Hex.StripSeparators | automation/acme_certs.py:206 | the cleaned modulus holds no colon and no character `str.isspace` accepts (the Unicode white space `\s` matches), and is unchanged when it held none |
| Hex.StripAppend | automation/acme_certs.py:206 | separators are removed wherever they stand: stripping a concatenation strips each part |
| Hex.StripNoBreakSpace | automation/acme_certs.py:206 | a no-break space U+00A0 is removed like a colon: `00:` U+00A0 `ab` becomes `00ab` |
| Hex.Exponent65537 | automation/acme_certs.py:197-204 | the exponent 65537 becomes the three octets 01 00 01 |
| Json.Get | automation/acme_certs.py:282 | `j[k]` succeeds exactly on a dictionary holding `k`; KeyError on a dictionary without it, TypeError otherwise |
| Json.GetOr | automation/acme_certs.py:214 | `j.get(k, d)` is the entry or the default on a dictionary, and fails on anything else |
| Json.Elements | automation/acme_certs.py:271 | iterating a list gives its items and a string its characters; numbers, booleans and null raise TypeError (dictionaries: see Left out) |
| AccountKey.FromPublicKey | automation/acme_certs.py:197-207 | the JWK exists exactly when the modulus text unhexlifies; `e` and `n` decode to the exponent octets and the modulus octets |
| AccountKey.JwkObject | automation/acme_certs.py:203-207 | the JWK object has exactly the members `e`, `kty` = RSA, `n` |
| AccountKey.Canonical | automation/acme_certs.py:209 | the canonical JWK text of a well-formed key holds no JSON white space (RFC 7638 section 3) |
| AccountKey.CanonicalSortedCompact | automation/acme_certs.py:209 | the canonical text is `{`, the compact `"name":"value"` members of any strictly name-sorted list holding exactly the JWK's members, and `}`; for a well-formed key no member needs an escape |
| AccountKey.SortedJwkMembers | automation/acme_certs.py:209 | `sort_keys=True` admits one member list for a JWK: `e`, `kty`, `n` in that order |
| AccountKey.JwkNameOrder | automation/acme_certs.py:209 | Python's string order puts the member names `e` < `kty` < `n` |
| AccountKey.CanonicalInjective | automation/acme_certs.py:209 | two well-formed keys with the same canonical JSON text are the same key |
| AccountKey.Thumbprint | automation/acme_certs.py:209-210 | the thumbprint is URL-safe and decodes to SHA-256 of the canonical JWK's UTF-8 octets (RFC 7638) |
| AccountKey.ThumbprintShape | automation/acme_certs.py:210 | with a 32-octet digest the thumbprint has 43 characters and no `.` or `=` |
| AccountKey.SplitLastDot | automation/acme_certs.py:297 | the split at the last dot rejoins to the text and leaves no dot after it |
| AccountKey.KeyAuthorization | automation/acme_certs.py:297 | a key authorization splits back into its token and dot-free thumbprint at its last dot (RFC 8555 section 8.1) |
| AccountKey.SplitLastDotAppended | automation/acme_certs.py:297 | text joined to a dot-free tail by a dot splits back at that dot |
| AccountKey.TxtValue | automation/acme_certs.py:298 | the TXT value decodes to SHA-256 of the key authorization (RFC 8555 section 8.4) |
| DnsProvider.RecordTarget | automation/acme_certs.py:60-66 | name and zone rejoin to the domain; root mode's name is the first label, default mode's the first two; fewer than three labels raise IndexError |
| DnsProvider.DeleteBase | automation/acme_certs.py:116 | the deletion zone exists exactly for names of three labels or more; otherwise IndexError |
| DnsProvider.DeleteMatchesDefaultCreate | automation/acme_certs.py:116 | in default mode the deletion zone is the creation zone |
| DnsProvider.DeleteMissesRootCreate | automation/acme_certs.py:116 | in root mode the deletion zone is the creation zone without its first label, so a different zone |
| DnsProvider.RecordId | automation/acme_certs.py:82 | the record id is read exactly when the body is JSON holding `domain_record.id` |
| DnsProvider.CreateSettles | automation/acme_certs.py:70-91 | reference definition: the first attempt that is not retried, at most the seventh |
| DnsProvider.SettlesFirst | automation/acme_certs.py:85-91 | every attempt before the settling one is retried, and the settling one (if among the first six) is not |
| DnsProvider.CreateLoop | automation/acme_certs.py:70-91 | the loop starts with a POST of the record and ends in a record id, exit 2 or an exception |
| DnsProvider.CreateLoopTrace | automation/acme_certs.py:70-91 | the POSTs and sleeps of the loop: one POST per attempt up to the settling one, sleeps doubling between them |
| DnsProvider.CreateLoopResult | automation/acme_certs.py:77-91 | the settling attempt decides: a missing response raises AttributeError, the seventh exits 2, any other gives its record id or raises |
| DnsProvider.CreateLoopClosedForm | automation/acme_certs.py:70-91 | the retry loop equals the reference: attempts with doubling sleeps up to the settling attempt, which decides the result |
| DnsProvider.CreateTxtClosedForm | automation/acme_certs.py:57-91 | `create_txt` is the retry loop from the first attempt, posting to the zone of lines 60-66 |
| DnsProvider.CreateTxt | automation/acme_certs.py:57-91 | a name of fewer than three labels raises IndexError before any POST; otherwise the first event is the POST of the TXT value; the result is a record id, exit 2 or an exception |
| DnsProvider.CreateTxtBounded | automation/acme_certs.py:70-91 | at most seven POSTs, sleeps 2, 4, ... doubling, one sleep per retry |
| DnsProvider.CreateTxtExits | automation/acme_certs.py:77-79 | exit 2 exactly when six replies are retried and a seventh response exists; the sleeps were 2 to 64 |
| DnsProvider.CreateTxtSucceeds | automation/acme_certs.py:81-84 | a record id is returned exactly when some of the first six replies carries one after only retried replies |
| DnsProvider.FirstFound | automation/acme_certs.py:98-106 | reference definition: the first lookup that finds the record, or 6 |
| DnsProvider.PropagationLoop | automation/acme_certs.py:96-113 | the wait starts with a lookup of the name and ends found or in exit 3 |
| DnsProvider.TestTxt | automation/acme_certs.py:93-113 | `test_txt` starts with a lookup of the name and ends found or in exit 3, never in an exception |
| DnsProvider.PropagationClosedForm | automation/acme_certs.py:96-113 | the wait loop equals the reference: lookups with doubling sleeps until found, or exit 3 after six misses |
| DnsProvider.TestTxtBounded | automation/acme_certs.py:93-113 | at most six lookups, sleeps 10 to 320 doubling, exit 3 exactly when all six miss |
| DnsProvider.CreateDeletesNothing | automation/acme_certs.py:57-91 | creating the record never deletes one |
| DnsProvider.TestDeletesNothing | automation/acme_certs.py:93-113 | waiting for propagation never deletes the record |
| DnsProvider.DeleteTxt | automation/acme_certs.py:115-120 | one DELETE of the id to the zone `split(".", 2)[2]`, which succeeds exactly when the server answers and otherwise raises RequestException; IndexError before any DELETE for fewer than three labels |
| DnsProvider.Deleted | automation/acme_certs.py:120 | the unguarded `requests.delete` returns when the server answers and raises RequestException otherwise |
| DnsProvider.CreateZone | automation/acme_certs.py:60-74 | every POST of a `create_txt` run goes to the zone of lines 63 and 66 |
| DnsProvider.DeleteMissesRootZone | automation/acme_certs.py:115-120 | as written, the DELETE of a root-mode record never goes to the zone its POSTs used |
| DnsProvider.Retract | automation/acme_certs.py:115-120 | corrected deletion: one DELETE of the id, with the same IndexError and RequestException failures as the original |
| DnsProvider.RetractMatchesCreate | automation/acme_certs.py:115-120 | the corrected DELETE goes to the zone of every creating POST, in both modes |
| DnsProvider.RootModeZones | automation/acme_certs.py:60-66 | for `x.y.z` in root mode the record is created in zone `y.z` and deleted from zone `z` |
| DnsProvider.RootModeExampleZones | automation/acme_certs.py:60-66 | `_acme-challenge.example.com` in root mode: created in zone `example.com`, deleted from zone `com` |
| DnsProvider.RootModeLeakExample | automation/acme_certs.py:116 | `_acme-challenge.example.com`: created in zone `example.com`, DELETE sent to zone `com` |
| Transport.PayloadDecodes | automation/acme_certs.py:125-128 | POST-as-GET sends the empty payload; otherwise the payload decodes to the UTF-8 JSON text |
| Transport.Payload64 | automation/acme_certs.py:125-128 | POST-as-GET sends the empty payload; any other payload decodes back to its UTF-8 JSON text |
| Transport.TakeNonce | automation/acme_certs.py:130 | a stored nonce is used without a request; an empty or absent one costs one newNonce GET, which raises RequestException when it fails and KeyError when its answer has no Replay-Nonce in any letter case |
| Transport.Header | automation/acme_certs.py:155 | `headers[name]` finds the entry whose name equals `name` ignoring case, and nothing exactly when no name does |
| Transport.HeaderIgnoresCase | automation/acme_certs.py:155 | a header stored under one spelling is read back under any other spelling of its name, and storing leaves other names alone |
| Transport.LowerCaseNonce | automation/acme_certs.py:155 | a nonce the server sends as `replay-nonce` is found by the lookup of `Replay-Nonce` |
| Transport.Protected | automation/acme_certs.py:129-137 | newAccount is always signed and never with `kid`; other URLs are signed exactly when the signature holds `jwk`, which is then dropped; `nonce` and `url` are set |
| Transport.ProtectedHeader | automation/acme_certs.py:129-137 | newAccount is signed with `jwk` and no `kid`, other URLs with `kid` and no `jwk` (RFC 8555 section 6.2); `nonce` and `url` are set, other members kept |
| Transport.SealDecodes | automation/acme_certs.py:138-143 | the envelope's header decodes to the header's JSON text, and its signature to the signature of `protected.payload` |
| Transport.Seal | automation/acme_certs.py:138-143 | the envelope carries the payload unchanged, a header that decodes to the header JSON text, and a signature that decodes to the signature of `protected.payload` |
| Transport.JoseHeadersMerge | automation/acme_certs.py:144-146 | headers are the union; extra headers win over fixed ones, which win over the JOSE content type |
| Transport.JoseHeaders | automation/acme_certs.py:144-146 | the request headers are the content type, the fixed and the extra headers, and the extra headers win |
| Transport.Accepted | automation/acme_certs.py:154 | a response with a success or redirect status is truthy; one with a client or server error status, or none at all, is not |
| Transport.PostLoop | automation/acme_certs.py:147-166 | every attempt starts by posting the envelope, and the loop returns only an accepted response or raises RuntimeError |
| Transport.PostSettles | automation/acme_certs.py:147-166 | reference definition: the first accepted reply, at most the seventh |
| Transport.PostLoopTrace | automation/acme_certs.py:147-166 | the loop's trace is one attempt per reply up to the settling one, with doubling sleeps between them |
| Transport.PostLoopResult | automation/acme_certs.py:154-163 | the loop returns the settling reply when it is accepted, RuntimeError otherwise |
| Transport.Read | automation/acme_certs.py:155-159 | the nonce is the value of the header whose name is `Replay-Nonce` in any letter case, and a reply without one raises KeyError; a non-JSON body becomes `{}` |
| Transport.Jose | automation/acme_certs.py:129-143 | signing fails (KeyError) exactly when a URL other than newAccount meets a signature without `jwk`; the envelope carries the payload |
| Transport.Deliver | automation/acme_certs.py:147-166 | after signing: only accepted responses are returned, with their nonce; the first attempt follows the nonce step |
| Transport.Send | automation/acme_certs.py:122-166 | a signed request returns an accepted response carrying its Replay-Nonce, or raises (also when the newNonce GET fails); it starts with a nonce fetch exactly when no nonce is stored |
| Transport.SendClosedForm | automation/acme_certs.py:122-166 | the request is the nonce step, then one envelope posted until the first accepted reply |
| Transport.SendRetries | automation/acme_certs.py:147-166 | one envelope, posted one to seven times, with sleeps doubling from 2 |
| Transport.SendGivesUp | automation/acme_certs.py:160-163 | RuntimeError exactly when none of seven replies is accepted, after sleeps 2 to 64 |
| Transport.SettlesGivesUp | automation/acme_certs.py:161-163 | the loop settles on a refused reply exactly when all seven are refused |
| Transport.NonceChain | automation/acme_certs.py:130-131 | the next request reuses the Replay-Nonce of the last answer, and fetches a new one only when it was empty |
| Transport.Request | automation/acme_certs.py:122 | as one stage step, a signed request is a single call that answers with an accepted response or raises |
| Account.InitialSignature | automation/acme_certs.py:201-208 | before registration the signature holds exactly `alg` = RS256 and the account's `jwk` |
| Account.NewAccountCarriesKey | automation/acme_certs.py:133-135 | the newAccount request carries the account key and no `kid` |
| Account.TermsOfService | automation/acme_certs.py:214 | the terms URL when present, `""` (falsy) otherwise; AttributeError when the directory or its `meta` is not a dictionary |
| Account.ContactList | automation/acme_certs.py:222 | the contact list is the `;`-split of the configured string, element by element |
| Account.AccountRequest | automation/acme_certs.py:217-224 | `termsOfServiceAgreed` exactly when the terms are truthy; `contact` exactly when contacts are configured |
| Account.ContactsRoundTrip | automation/acme_certs.py:222-224 | the contacts sent join back to the configured string |
| Account.Registration | automation/acme_certs.py:227-237 | 201 and 200 set `kid` from the Location header, read in any letter case; 200 fetches the account again; a missing Location raises KeyError; any other status raises ValueError |
| Account.Register | automation/acme_certs.py:226 | registration is the newAccount request followed by the decision on its answer |
| Account.ElementSet | automation/acme_certs.py:241 | `set(x)` of a list holds its items and of a dict its keys; values that are not iterable or hold unhashable items raise TypeError |
| Account.ContactsDiffer | automation/acme_certs.py:240-241 | an update is needed exactly when contacts are configured and their set differs from the account's |
| Account.UpdateContacts | automation/acme_certs.py:239-248 | no request when in sync; otherwise one request, and a status other than 200 raises ValueError |
| Account.NoUpdateWhenInSync | automation/acme_certs.py:239-241 | an account already listing the configured contacts gets no update request |
| Orders.DnsNames | automation/acme_certs.py:184-186 | the names are exactly the `DNS:` entries without their prefix |
| Orders.CsrDomains | automation/acme_certs.py:176-188 | the domains are the common name plus the DNS names; none at all raises ValueError |
| Orders.NewOrder | automation/acme_certs.py:252 | the payload holds only `identifiers`: one distinct `dns` identifier for each domain and none for anything else |
| Orders.OrderNamesCsr | automation/acme_certs.py:176-188 | the order asks for exactly the CSR's common name and `DNS:` names, each once |
| Orders.OrderCreated | automation/acme_certs.py:254-268 | accepted exactly for 201 with a Location header (any letter case) and status `pending` or `ready`; other statuses raise ValueError |
| Orders.CreateOrder | automation/acme_certs.py:253 | the order is the newOrder request followed by the decision on its answer |
| Orders.ForbiddenNeverDecided | automation/acme_certs.py:260-265 | the 403 branch is unreachable: the transport returns only accepted responses |
| Authorizations.Dns01 | automation/acme_certs.py:291 | the filtered list holds exactly the dns-01 challenges, first one first; a challenge without `type` raises |
| Authorizations.Identifier | automation/acme_certs.py:282 | `authorization["identifier"]["value"]` exists exactly when both levels are dictionaries holding the keys |
| Authorizations.Inspect | automation/acme_certs.py:279-296 | non-200 raises; `valid` skips; statuses other than `pending` raise; otherwise a dns-01 challenge of the list is chosen |
| Authorizations.Provision | automation/acme_certs.py:297-302 | on success the domain is a string and the record is `_acme-challenge.<domain>`, a name of at least three labels; otherwise the step exits 2 or 3 or raises |
| Authorizations.Trigger | automation/acme_certs.py:305-308 | the validation request goes to the challenge's `url` and deletes nothing |
| Authorizations.Prepare | automation/acme_certs.py:297-308 | the armed challenge names the created record and the challenge URL |
| Authorizations.Classify | automation/acme_certs.py:313-336 | 200 with `valid` ends the loop; `processing`, `pending` and `invalid` wait; other statuses are unexpected; non-200 raises ValueError |
| Authorizations.PollLoop | automation/acme_certs.py:311-338 | the poll loop ends in success, an exception, or exit 4 |
| Authorizations.PollShape | automation/acme_certs.py:311-323 | at most nine polls in all; exactly nine on exit 4 and whenever the loop deleted the record |
| Authorizations.PollSleeps | automation/acme_certs.py:324-335 | one sleep between each two polls and none after the last |
| Authorizations.PollDeletes | automation/acme_certs.py:320-323 | the loop deletes the record at most once, and then ends in exit 4 if the DELETE was answered or in RequestException if not; exit 4 always follows a deletion |
| Authorizations.PollDoubling | automation/acme_certs.py:312 | the sleeps double from step to step |
| Authorizations.PollBounded | automation/acme_certs.py:311-323 | from the start: one to nine polls, sleeps 2 to 256 doubling; a deletion comes after all nine polls and sleeps 2 to 256 and ends in exit 4 or, if the DELETE raised, RequestException; with the DELETE answered, exit 4 exactly when deleted |
| Authorizations.LastPoll | automation/acme_certs.py:315-323 | at the ninth poll `valid` still wins and a failure raises, without deletion; anything waiting or unexpected deletes the record once and exits 4, or raises RequestException if the DELETE fails |
| Authorizations.Ceiling | automation/acme_certs.py:321-323 | past the ceiling one DELETE goes to the zone of line 116, then exit 4 if it was answered and RequestException if not; IndexError for a name of fewer than three labels |
| Authorizations.CeilingOutcome | automation/acme_certs.py:322-323 | exit 4 exactly when the DELETE before it came back; otherwise its RequestException ends the run |
| Authorizations.Validate | automation/acme_certs.py:309-340 | `finally` sends one DELETE after the poll loop; the loop's outcome stands when that DELETE comes back, and its RequestException replaces the outcome when it does not; IndexError for a name of fewer than three labels |
| Authorizations.ValidateDeletes | automation/acme_certs.py:309-340 | one or two deletions; exit 4 needs two, and two deletions end in exit 4 when both DELETEs came back and in RequestException otherwise; with one deletion the first DELETE failing means RequestException |
| Authorizations.ValidateDeletesAnswered | automation/acme_certs.py:309-340 | when every DELETE comes back, exit 4 is exactly the path with two deletions |
| Authorizations.PrepareDeletesNothing | automation/acme_certs.py:297-308 | nothing is deleted before the `try` |
| Authorizations.HandleDeletes | automation/acme_certs.py:278-340 | one authorization deletes at most twice; exit 4 needs two deletions, and two deletions mean exit 4 or a failed DELETE; with every DELETE answered, exit 4 exactly when two; success deletes at most once |
| Authorizations.RespondDeletes | automation/acme_certs.py:297-340 | no deletion exactly when preparation fails; exit 4 needs two deletions, and two deletions mean exit 4 when both DELETEs came back and RequestException otherwise; success deletes once |
| Authorizations.Handle | automation/acme_certs.py:278-340 | an authorization given as a string URL starts with a POST-as-GET of it, and the step ends in success, an exception or exit 2, 3 or 4 (a URL that is not a string: see Left out) |
| Authorizations.Respond | automation/acme_certs.py:297-340 | answering a challenge ends in success only after preparation succeeded, and otherwise in an exception or exit 2, 3 or 4 |
| Authorizations.TriggerFailureKeepsRecord | automation/acme_certs.py:305-309 | a failing trigger after the record was created leaves it in place |
| Authorizations.ProvisionCreates | automation/acme_certs.py:301 | a provisioned record was created first |
| Authorizations.ReadySkipsAll | automation/acme_certs.py:271-274 | an order already `ready` makes no request |
| Authorizations.EmptyListSkipsStatus | automation/acme_certs.py:271-272 | an empty authorization list never reads the order status |
| Authorizations.AuthzLoopDeletes | automation/acme_certs.py:271-340 | a successful loop deletes at most once per authorization |
| Authorizations.AuthzLoop | automation/acme_certs.py:271-340 | a `ready` order makes no request; a missing status raises before the first authorization; the loop exits only with an exit code of one of its steps |
| Authorizations.Steps | automation/acme_certs.py:278-340 | each authorization step that succeeds deleted at most one record, and steps past the list change nothing |
| Authorizations.Authorize | automation/acme_certs.py:271-340 | a missing authorization list raises before any request; a successful run had a list and deleted at most one record per authorization |
| Finalize.SendCsr | automation/acme_certs.py:345-348 | the CSR goes in one request to `order["finalize"]`; a missing URL raises before any request |
| Finalize.CsrPayload | automation/acme_certs.py:345 | the finalize payload holds exactly the `csr` member, which reads back as the CSR text |
| Finalize.RetryAfter | automation/acme_certs.py:353-357 | the wait is the Retry-After value (header name in any letter case), or 2 when it does not convert; a missing header raises KeyError |
| Finalize.Settle | automation/acme_certs.py:350-363 | every poll starts with a POST-as-GET of the order URL, and the loop returns an order only when it is `valid` |
| Finalize.Waits | automation/acme_certs.py:353-357 | a poll waits only for a `processing` order with a usable Retry-After |
| Finalize.SettleStep | automation/acme_certs.py:350-363 | a poll either ends the loop after one request or sleeps and continues |
| Finalize.SettleFuel | automation/acme_certs.py:350-363 | once the loop has ended, more polls allowed change nothing |
| Finalize.SettlePolls | automation/acme_certs.py:350-351 | an ended loop polled at least once |
| Finalize.SettleSleeps | automation/acme_certs.py:353-357 | one sleep between each two polls and none after the last |
| Finalize.SettleResult | automation/acme_certs.py:358-363 | the loop returns only a `valid` order, or raises; it never exits |
| Finalize.PollsAnswerOrRaise | automation/acme_certs.py:351 | a poll either answers or raises |
| Finalize.ProcessingWaits | automation/acme_certs.py:353-357 | `processing` without a Retry-After header in any letter case raises KeyError; an unusable value sleeps 2 |
| Finalize.AcceptHeader | automation/acme_certs.py:367-368 | the Accept header is the configured format, `application/pem-certificate-chain` by default |
| Finalize.Download | automation/acme_certs.py:365-377 | the certificate is the text of a 200 answer to a request of `order["certificate"]` |
| Finalize.DownloadAccepts | automation/acme_certs.py:144-146 | every download attempt carries the Accept header next to the JOSE content type |
| Finalize.Certify | automation/acme_certs.py:342-377 | finalization begins with the CSR request, and a certificate needs that request to succeed |
| Finalize.CertifiedOrderIsValid | automation/acme_certs.py:350-377 | a certificate comes only from an order the CA reported `valid`, via the download |
| Overrides.Load | tools/add_dependency_overrides.py:38-41 | an empty file loads as `None` |
| Overrides.Update | tools/add_dependency_overrides.py:50 | `dict.update` adds the argument's entries, replacing same-key ones and keeping the rest; empty non-dicts change nothing; other values raise |
| Overrides.Merge | add-dependency-overrides.py:41-46 | other top-level keys are kept; an existing section is updated with the overrides winning; an absent one becomes the overrides |
| Overrides.MergeIdempotent | tools/add_dependency_overrides.py:49-52 | merging the same overrides a second time changes nothing |
| Overrides.Main | tools/add_dependency_overrides.py:24-32 | a missing file raises FileNotFound after the message; an empty overrides file is reported and the add still runs |
| Overrides.Unguarded | add-dependency-overrides.py:34-50 | the pubspec is rewritten exactly when the merge succeeds, with the merged document |
| Overrides.GuardedAsWritten | tools/add_dependency_overrides.py:35-57 | falsy overrides change nothing; after a successful merge the file is truncated and NameError is raised |
| Overrides.Guarded | tools/add_dependency_overrides.py:35-57 | corrected: rewritten exactly when the overrides are truthy and the merge succeeds, and then reported |
| Overrides.GuardOnlyDiffers | tools/add_dependency_overrides.py:43-46 | on truthy overrides the two scripts have the same effect and result |
| Overrides.WriteLost | tools/add_dependency_overrides.py:54-55 | whenever the corrected script would rewrite the pubspec, the one as written leaves it empty and raises |
| Overrides.WriteLostExample | tools/add_dependency_overrides.py:54-55 | adding `at_commons` to a pubspec without the section truncates it |
| Overrides.ToolsScript | tools/add_dependency_overrides.py:24-46 | an empty overrides file leaves the pubspec untouched |
| Overrides.DashScript | add-dependency-overrides.py:23-50 | an empty overrides file sets an absent section to null, and raises TypeError on an existing section |
| Pinning.BranchValue | add_dependency_overrides.py:28 | `ref` is the branch name, or null when none was given |
| Pinning.In | add_dependency_overrides.py:27 | `in` is substring on strings, membership on lists, key on dicts; TypeError otherwise |
| Pinning.OnServer | add_dependency_overrides.py:27 | an entry counts as on the server only through a `git.url` that is a string, list or dictionary, the only values `in` accepts without TypeError |
| Pinning.PinEntry | add_dependency_overrides.py:26-28 | a non-`at_` entry is kept; an `at_` entry on `at_server.git` gets `git.ref` set with all else kept; a missing `git` or `url` raises |
| Pinning.PinEntryIdempotent | add_dependency_overrides.py:26-28 | pinning twice to the same branch equals pinning once |
| Pinning.PinAllEntries | add_dependency_overrides.py:26-28 | the loop succeeds exactly when every entry does, keeps the keys, and pins each visited entry |
| Pinning.PinAll | add_dependency_overrides.py:26-28 | the loop ends in an exception or a map with exactly the dependency keys |
| Pinning.PinAllFirstFailure | add_dependency_overrides.py:26-28 | the loop raises the first failing entry's exception |
| Pinning.Pin | add_dependency_overrides.py:21-30 | the section gets exactly the dependency keys and all other keys are kept; a missing or non-dict `dependencies` raises |
| Pinning.ReplacesWholesale | add_dependency_overrides.py:30 | the section written does not depend on the previous section |
| Pinning.PinnedEntries | add_dependency_overrides.py:24-30 | each override is the pinned dependency: a server git dependency gets the branch, every other one is copied |
| Config.Store | at_secondary/at_secondary_server/config/generate_config.py:40 | assignment sets the key and keeps the others; TypeError on a non-dictionary |
| Config.Visit | at_secondary/at_secondary_server/config/generate_config.py:42 | the lookups succeed exactly when the root is a dictionary holding every key, or there are none |
| Config.VisitFails | at_secondary/at_secondary_server/config/generate_config.py:42 | the walk from the root succeeds exactly when the root holds every visited key |
| Config.Assign | at_secondary/at_secondary_server/config/generate_config.py:33-43 | as written: the value lands in `root[f(n-2)][f(n-1)]`, and the walk needs every segment at the top level |
| Config.AssignNested | at_secondary/at_secondary_server/config/generate_config.py:37-43 | corrected walk: only the top-level key named by the first segment changes |
| Config.NestedReachesPath | at_secondary/at_secondary_server/config/generate_config.py:37-43 | the corrected walk succeeds exactly when the path runs through dictionaries, and the value is then found at the full path |
| Config.Lookup | at_secondary/at_secondary_server/config/generate_config.py:37-43 | reading along a non-empty path succeeds only through dictionaries |
| Config.FromRootLastTwo | at_secondary/at_secondary_server/config/generate_config.py:42 | as written, a key of three or more segments acts like its last two segments |
| Config.NestedKeyRaises | at_secondary/at_secondary_server/config/generate_config.py:42 | `a.b.c` on `{a: {b: {c: 1}}}` raises KeyError as written and is set by the corrected walk |
| Config.NestedKeyMisplaced | at_secondary/at_secondary_server/config/generate_config.py:42 | with a top-level `b`, `a.b.c` is written to `root[b][c]` and `a` is untouched |
| Config.Place | at_secondary/at_secondary_server/config/generate_config.py:33-43 | one property changes only its top-level key |
| Config.Segments | at_secondary/at_secondary_server/config/generate_config.py:33 | a property key splits into at least one segment, and the segments joined by dots give the key back |
| Config.Generate | at_secondary/at_secondary_server/config/generate_config.py:32-43 | the properties are applied in the order the loop meets them, ending in a document or an exception (each key once in the script: see Left out) |
| Config.RepeatedKeyDiverges | at_secondary/at_secondary_server/config/generate_config.py:32-43 | replaying the lines `p.q=2`, `p=1`, `p.q=x` raises TypeError, while their dictionary (`p.q` with `x`, then `p`) writes `{p: "1"}`: a repeated key is not the same as the last value alone |
| Config.GenerateKeeps | at_secondary/at_secondary_server/config/generate_config.py:32-43 | a top-level entry no property names keeps its value |
| Config.LaterWins | at_secondary/at_secondary_server/config/generate_config.py:32-43 | of two properties whose values land in the same place (as written, the same last two segments, such as `x.b.c` and `b.c`; corrected, the same key), the later value stays: the result is what the later property gives alone |
| Config.LaterWinsSameKey | at_secondary/at_secondary_server/config/generate_config.py:32-43 | the same key written twice keeps the second value |
| Config.AssignOverwrites | at_secondary/at_secondary_server/config/generate_config.py:33-43 | as written, a property overwrites what an earlier one with the same last two segments wrote, whatever segments come before them |
| Config.VisitSameKeys | at_secondary/at_secondary_server/config/generate_config.py:42 | the root lookups depend only on which keys the root holds |
| Config.AssignTwice | at_secondary/at_secondary_server/config/generate_config.py:33-43 | assigning the same key twice equals assigning the second value |
| Config.NestedTwice | at_secondary/at_secondary_server/config/generate_config.py:37-43 | the same holds for the corrected walk |

## Left out

- HTTP, DNS resolution, `time.sleep`, `subprocess`/openssl and file I/O are not performed. Their answers are parameters indexed by attempt, and their effects are trace events.
- The HTTP answers, whether each TXT DELETE came back (`answered`, `deleted`) and whether the newNonce GET came back (`fetched`) are parameters. The unguarded GET of line 130 and DELETE of line 120 raise RequestException when they do not come back; the POST of line 151 sits in a `try` and is retried.
- Response headers are the case-insensitive dictionary of `requests`. Case folding is modelled for code points below 256, the only ones `http.client` produces in header names.
- Json.Elements: iterating a dictionary (which Python allows and which yields its keys) is modelled as TypeError. The iterations of lines 271 and 291 are over `authorizations` and `challenges`, which sections 7.1.3 and 7.1.4 of RFC 8555 make lists. For a non-empty `challenges` dictionary Python also ends in TypeError, at `c["type"]` on a key; for `authorizations` and an empty `challenges` it would go on.
- Authorizations.Provision: an identifier value that is not a string raises TypeError in the model, where the f-string of line 300 would format it and go on. RFC 8555 section 9.7.7 makes a `dns` identifier value a string.
- Authorizations.Handle: an authorization URL that is not a string raises TypeError before any request, with an empty trace. The source passes it to `_send_signed_request`, which fetches a nonce and signs, and then `requests.post` rejects the URL on each of the seven attempts (MissingSchema or InvalidSchema, both RequestException), ending in RuntimeError. RFC 8555 section 7.1.4 makes the `authorizations` entries strings.
- Authorizations.Trigger: a challenge `url` that is not a string raises TypeError before any request, where the source retries the POST into RuntimeError as for `Authorizations.Handle`. RFC 8555 section 8 makes a challenge's `url` a string.
- Finalize.SendCsr: a `finalize` URL that is not a string raises TypeError before any request, where the source retries the POST into RuntimeError. RFC 8555 section 7.1.3 makes `finalize` a string.
- Finalize.Download: a `certificate` URL that is not a string raises TypeError before any request, where the source retries the POST into RuntimeError. RFC 8555 section 7.1.3 makes `certificate` a string.
- SHA-256, the RSA-SHA256 signature and `json.dumps` are function parameters. Only their use is modelled: which octets are hashed or signed, and how the results are encoded.
- The regular expressions that scrape the CSR and the key text (lines 177-182 and 193-196) are left out. The common name, the SAN line, the exponent and the modulus text are inputs.
- The `DO_KEY` check, `main`, argparse and logging are left out. They do not affect the modelled behaviour.
- Finalize.RetryAfter: `float(...)` and a fractional `time.sleep` are modelled as a `seconds` parameter that gives whole seconds, or `None` when the conversion raises.
- Finalize.Settle: lines 350-363 have no bound, so the model takes a `fuel` count and returns `None` when it runs out. A server that answers `processing` forever is not modelled.
- Orders.NewOrder: the iteration order of the `domains` set is an input (`listing`).
- Pinning.PinAll: the order of dictionary keys is an input (`order`).
- Stage traces (account, orders, authorizations, finalize) record each signed request as one `Call` event. The nonce fetch, attempts and sleeps inside it are proved on `Transport.Send` only.
- `del nonce` (line 131) is not modelled as unbinding the variable. Every path that leaves it unbound propagates an exception out of `get_crt` anyway.
- Transport.Accepted: the truthiness of `requests.Response` is modelled as "a response with status below 400 or at least 600".
- The `link` header log (lines 373-374) is left out.
- YAML is modelled as a `Json` document with string keys. Key order, comments, quoting, anchors and the dump format are left out.
- Overrides.Update: `dict.update` with a list of key/value pairs is modelled as TypeError. An empty list, like an empty string, changes nothing.
- Config.Generate: the properties are a sequence, where line 32 iterates the properties dictionary, which holds each key once. The model gives the script's result only on a sequence with no repeated key; replaying a file whose key repeats with other keys between can differ, as `Config.RepeatedKeyDiverges` shows (`p.q=2`, `p=1`, `p.q=x` on `{p: {}}` raises TypeError, while the dictionary of those lines writes `{p: "1"}`). The order in which the dictionary yields its keys is an input.
- Config.Segments: `str.split('.')` is modelled. Keys of the form `a..b` give an empty segment, as in the source.

## Findings

| source | as written | input that shows it | evidently intended | confidence | as-written member | corrected member |
|---|---|---|---|---|---|---|
| tools/add_dependency_overrides.py:54-55 | the file is opened for writing, then `ruamel.yaml.round_trip_dump` is called, but only `YAML` was imported from `ruamel.yaml`, so the name `ruamel` is undefined | pubspec `{name: at_secondary}`, overrides `{at_commons: {path: ../at_commons}}`: pubspec.yaml is left empty and NameError is raised | write the merged document and print the success line | high; not executed | Overrides.GuardedAsWritten (Overrides.WriteLost, Overrides.WriteLostExample) | Overrides.Guarded (Overrides.GuardOnlyDiffers) |
| at_secondary/at_secondary_server/config/generate_config.py:42 | each step looks the next segment up in the root (`yamlMap[fields[i]]`), not in the current node (`temp`) | `a.b.c` on `{a: {b: {c: 1}}}` raises KeyError; on `{a: {b: {}}, b: {}}` it writes `root[b][c]` | walk down the nested path: `temp = temp[fields[i]]` | high; not executed | Config.Assign (Config.NestedKeyRaises, Config.NestedKeyMisplaced, Config.FromRootLastTwo) | Config.AssignNested (Config.NestedReachesPath) |
| automation/acme_certs.py:116 | `delete_txt` always uses the zone `split(".", 2)[2]`, but in root mode `create_txt` posted to `split[1] + "." + split[2]` (line 63) | root mode for `example.com`: the record is created in zone `example.com` and the DELETE goes to `domains/com/records/{id}` | delete from the zone the record was created in | high; not executed | DnsProvider.DeleteTxt (DnsProvider.DeleteMissesRootZone, DnsProvider.RootModeLeakExample) | DnsProvider.Retract (DnsProvider.RetractMatchesCreate) |

The authorization model (`Authorizations.Validate`, `Authorizations.Ceiling`) keeps the
deletion as written, because the deletion counts it proves do not depend on the zone.
`Config.Generate` takes the walk as a parameter, so both walks are part of the model.
