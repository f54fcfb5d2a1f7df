# Open in Safari relay: a Dafny model of its request decisions

The relay is a small HTTP server on a Mac. Clients on a Parallels virtual
network ask it to open a URL in Safari. This project models
`mac/open_in_safari_server.py` from the moment a request has been read to the
moment the answer is chosen:

- the `CONFIG` record and its `OIS_*` environment overrides;
- the redacted token shown in the start-up banner;
- the origin filter (`client_allowed`), with IPv4 addresses and networks read the way Python's `ipaddress` module reads them;
- `open_in_safari`: the scheme check, dry-run mode, and the mapping of what `open` did to a reply;
- the `GET` and `POST` handlers: the order of their gates and the status, body and launched URL of every answer.

Modules, in dependency order:

- `Wrappers`: `Option`.
- `Text`: `isspace`, `strip`, `split`/`join`, `startswith` and ASCII `lower`.
- `Decimal`: `int()` in base 10, with the whitespace `int()` itself skips, and `str()` of an integer.
- `IPv4`: addresses as `bv32`, dotted quads, netmasks, and networks parsed with `strict=False`.
- `Configuration`: `Settings`, `Overridden`, the class `Config` and `RedactedToken`.
- `OriginFilter`: `Allowed`, and the method `ClientAllowed` with its loop.
- `Opener`: `OpenInSafari`.
- `Router`: `HandleGet` and `HandlePost`.
- `Scenarios`: worked requests against a relay that lists only 10.0.0.0/24.

How the model stands in for the things it does not run:

- What `subprocess.run` came to is a parameter of type `Launch`: the process exited with a code and its error output, or an exception was raised, either before any child existed (a missing `/usr/bin/open`) or after (the timeout). It is consulted only when the launch is attempted, that is, when the URL is handed to `subprocess.run`.
- The environment is a `map<string, string>`.
- A request is reduced to four things: the client address text, the path, the token header if one was sent, and the `url` field of the decoded body if present.

Facts about the code that the model keeps:

- The token is compared with `!=`. Only the result of the comparison is modelled.
- A URL with a scheme other than http or https is answered with 500. It passes every gate, and `open_in_safari`'s refusal is then reported through `_reject(500, msg)` (`Router.SchemeRefusedAsServerError`).
- The token header is `X-OpenInSafari-Token`.
- An empty configured token switches the token check off for both methods (`Router.EmptyTokenDisablesCheck`). Starting from the defaults, the environment can never produce an empty token (`Configuration.LoadedTokenNonEmpty`).
- `GET /ping` applies neither the origin filter nor the token. It answers 200 to every client and reports what a POST would meet (`Router.GetReports`, `Router.PingPredictsPost`).
- When the body cannot be decoded, `_read_json` returns an empty dictionary, so the answer is 400 "Missing 'url'".

## Model

| member | source | states |
|---|---|---|
| Configuration.Config.constructor | mac/open_in_safari_server.py:41-48 | the record starts as the defaults: port 51888, bind 0.0.0.0, the two Parallels /24 networks, token "changeme123456", dry run off, verbose on |
| Configuration.Config.LoadEnvOverrides | mac/open_in_safari_server.py:51-68 | updating the fields in turn leaves the record equal to `Overridden` of the previous record and the environment |
| Configuration.Overridden | mac/open_in_safari_server.py:51-68 | the record after the overrides, field by field: its properties are the lemmas below, from `EmptyEnvironmentKeepsDefaults` to `TokenNeverBlanked` |
| Configuration.EmptyEnvironmentKeepsDefaults | mac/open_in_safari_server.py:41-68 | with no variables set, loading the overrides leaves the defaults as they are |
| Configuration.OverridesIdempotent | mac/open_in_safari_server.py:51-68 | loading the overrides twice from one environment gives the same record as loading them once |
| Configuration.PortChangesOnlyToParsedValue | mac/open_in_safari_server.py:56-60 | the port changes only when `OIS_PORT` is set, non-empty, and read by `int()` as the new port |
| Configuration.PortKeptUnlessInteger | mac/open_in_safari_server.py:56-60 | a missing or non-integer `OIS_PORT` keeps the old port (the `ValueError` is swallowed) |
| Configuration.PortFromDecimal | mac/open_in_safari_server.py:56-58 | `OIS_PORT` written as the decimal text of n sets the port to n, negative n included |
| Configuration.PortKeptAfterSeparator | mac/open_in_safari_server.py:56-60 | an `OIS_PORT` that starts with one of the separators U+001C to U+001F keeps the old port, because `int()` does not skip them |
| Configuration.SubnetsOverride | mac/open_in_safari_server.py:65-66 | a non-empty `OIS_ALLOWED_SUBNETS` replaces the list with its parsed entries; otherwise the list is kept |
| Configuration.SubnetList | mac/open_in_safari_server.py:66 | the comprehension over the comma-separated pieces; what its entries are is stated by `SubnetListClean`, `SubnetListMembers` and `SubnetListOfJoin` |
| Configuration.SubnetListClean | mac/open_in_safari_server.py:66 | every entry of the parsed list is non-empty, already stripped, and free of commas |
| Configuration.SubnetListMembers | mac/open_in_safari_server.py:66 | a string is an entry exactly when it is the stripped, non-blank form of one comma-separated piece |
| Configuration.StrippedEntriesMembers | mac/open_in_safari_server.py:66 | the comprehension keeps exactly the stripped, non-blank pieces |
| Configuration.SubnetListOfJoin | mac/open_in_safari_server.py:66 | clean entries written with commas between them parse back to the same list, in order |
| Configuration.Flag | mac/open_in_safari_server.py:67-68 | a variable, or its default when unset, compared with "true" after lower-casing; `DryRunFlag`, `VerboseFlag` and `Text.LowerIsTrue` state when it holds |
| Configuration.DryRunFlag | mac/open_in_safari_server.py:67 | dry run is on exactly when `OIS_DRY_RUN` is set to "true" in any letter case; when unset it defaults to "false" |
| Configuration.VerboseFlag | mac/open_in_safari_server.py:68 | verbose is on exactly when `OIS_VERBOSE` is unset or spells "true" in any letter case |
| Configuration.TokenNeverBlanked | mac/open_in_safari_server.py:63-64 | a non-empty `OIS_TOKEN` becomes the token, and the environment can never make a set token empty |
| Configuration.LoadedTokenNonEmpty | mac/open_in_safari_server.py:45 | starting from the defaults, the token is never empty whatever the environment holds |
| Configuration.RedactedToken | mac/open_in_safari_server.py:78-84 | the redacted text is at most seven characters long |
| Configuration.RedactedTokenShape | mac/open_in_safari_server.py:78-84 | an empty token shows "<empty>"; one to four characters show "***"; longer tokens show their first two and last two characters around "***" |
| Configuration.RedactionSeesOnlyEnds | mac/open_in_safari_server.py:82-84 | two long tokens that agree on their first two and last two characters redact alike |
| Configuration.RedactionShowsEmptiness | mac/open_in_safari_server.py:80-81 | "<empty>" is shown exactly for the empty token |
| Text.Strip | mac/open_in_safari_server.py:66 | `str.strip()`: never longer than the text; `StripKeepsMiddle`, `StripEmpty`, `StripIdempotent` and `StripAvoids` state what it removes and keeps |
| Text.StripKeepsMiddle | mac/open_in_safari_server.py:66 | `strip` keeps a contiguous slice; what it removes at either end is whitespace; the result neither starts nor ends with whitespace |
| Text.StripEmpty | mac/open_in_safari_server.py:117 | `strip` gives "" exactly for all-whitespace text |
| Text.StripIdempotent | mac/open_in_safari_server.py:204 | stripping twice is the same as stripping once |
| Text.StripAvoids | mac/open_in_safari_server.py:66 | stripping adds no character |
| Text.Split | mac/open_in_safari_server.py:66 | `str.split(sep)`: at least one piece, and no piece holds the separator; `JoinSplit` and `SplitJoin` make it the inverse of joining |
| Text.JoinSplit | mac/open_in_safari_server.py:66 | joining the pieces of `split` with the separator gives back the text |
| Text.SplitJoin | mac/open_in_safari_server.py:66 | separator-free pieces joined by the separator split back into themselves |
| Text.Lower | mac/open_in_safari_server.py:67-68 | `str.lower()` on ASCII letters, character by character; `LowerIsTrue` states when the result is "true" |
| Text.LowerIsTrue | mac/open_in_safari_server.py:67-68 | `lower() == "true"` holds exactly for the case variants of "true" |
| Decimal.ParseInt | mac/open_in_safari_server.py:58 | `int(text)`: the whitespace `int()` skips around an optional sign and underscore-separated digit groups; `ParseFormatInt`, `ParsePaddedInt` and `SeparatorRefused` state what it accepts and refuses |
| Decimal.ParseFormatInt | mac/open_in_safari_server.py:58 | `int(str(n)) == n` for every integer n |
| Decimal.ParsePaddedInt | mac/open_in_safari_server.py:58 | the decimal text of n with the whitespace `int()` skips before and after it still reads as n |
| Decimal.SeparatorRefused | mac/open_in_safari_server.py:58 | a text that starts with one of the separators U+001C to U+001F is refused, since `str.isspace` calls them whitespace but `int()` does not skip them |
| Decimal.FormatOfDigitsValue | mac/open_in_safari_server.py:88 | a canonical decimal spelling is the one `str` writes for its value |
| Decimal.DigitsValueOfFormat | mac/open_in_safari_server.py:58 | reading back the digits `str` wrote for n gives n |
| IPv4.ParseAddress | mac/open_in_safari_server.py:88 | `ip_address` on IPv4 text: a dotted quad with no '/'; `ParseFormatAddress` and `FormatParseAddress` make it the inverse of the address's text |
| IPv4.ParseOctet | mac/open_in_safari_server.py:88 | an accepted octet is a canonical spelling (no leading zero), and the octet has its decimal value |
| IPv4.ParseOctetAccepts | mac/open_in_safari_server.py:88 | every canonical spelling of a number below 256 is accepted as an octet |
| IPv4.ParseFormatAddress | mac/open_in_safari_server.py:88 | every address reads back from its own dotted-quad text |
| IPv4.FormatParseAddress | mac/open_in_safari_server.py:88 | an accepted text is the address's own text, so each address has exactly one spelling |
| IPv4.PrefixOfMask | mac/open_in_safari_server.py:93 | the prefix length found has the given netmask; if none is found, no length up to the bound has it |
| IPv4.MaskPrefix | mac/open_in_safari_server.py:93 | the prefix length found has the given bits as its netmask; when none is found, no prefix length from 0 to 32 has that netmask |
| IPv4.ParseMask | mac/open_in_safari_server.py:93 | the mask part of "address/mask": a decimal prefix length up to 32, else a dotted netmask, else a dotted hostmask; `ParseMaskOfFormat`, `ParseDottedMask`, `ParseDottedNetmask` and `ParseDottedHostmask` state what it reads |
| IPv4.ParseMaskOfFormat | mac/open_in_safari_server.py:93 | every prefix length written in decimal reads as itself |
| IPv4.ParseDottedMask | mac/open_in_safari_server.py:93 | a dotted-quad mask is read as the prefix length whose netmask it is; when it is no netmask, it is read as the length whose hostmask it is, and refused when it is neither |
| IPv4.ParseDottedNetmask | mac/open_in_safari_server.py:93 | the dotted netmask of every prefix length from 0 to 32 reads as that length |
| IPv4.ParseDottedHostmask | mac/open_in_safari_server.py:93 | the dotted hostmask of every prefix length from 1 to 31 reads as that length; for 0 and 32 the hostmask is itself a netmask |
| IPv4.MaskPrefixOfNetmask | mac/open_in_safari_server.py:93 | the prefix length read from a netmask is the one it belongs to |
| IPv4.NetmaskComplement | mac/open_in_safari_server.py:93 | the netmask and the hostmask of a prefix length are each other's complement |
| IPv4.NetmaskInjective | mac/open_in_safari_server.py:93 | different prefix lengths have different netmasks |
| IPv4.NetmaskIsPrefixMask | mac/open_in_safari_server.py:93 | every netmask is a run of one bits followed by zero bits |
| IPv4.ParseNetwork | mac/open_in_safari_server.py:93 | `ip_network(cidr, strict=False)` on IPv4 text: an address and, after at most one '/', a mask, with the host bits cleared; `ParseNetworkWellFormed`, `ParseNetworkOfCidr` and `ParseFormatNetwork` state what it reads |
| IPv4.ParseNetworkWellFormed | mac/open_in_safari_server.py:93 | a parsed network has the netmask of its prefix and no host bit set, because `strict=False` clears the host bits |
| IPv4.Contains | mac/open_in_safari_server.py:93 | `ip in network`: the address agrees with the network address on the netmask bits; `ContainsMasked` and `ContainsIsRange` restate it as agreement with the raw address and as a range |
| IPv4.ContainsMasked | mac/open_in_safari_server.py:93 | an address lies in the network around `raw` exactly when it agrees with `raw` on the netmask bits |
| IPv4.ContainsIsRange | mac/open_in_safari_server.py:93 | membership in a well-formed network is the range from its network address to its broadcast address |
| IPv4.ParseNetworkOfCidr | mac/open_in_safari_server.py:93 | "address/prefix" reads as the network of that prefix length around the address |
| IPv4.ParseFormatNetwork | mac/open_in_safari_server.py:93 | a well-formed network written out as text reads back as itself |
| OriginFilter.Allowed | mac/open_in_safari_server.py:86-97 | the client text reads as an address and some entry reads as a network containing it; `ClientAllowed` computes it, and the lemmas below state how it depends on the list |
| OriginFilter.ClientAllowed | mac/open_in_safari_server.py:86-97 | the loop over the entries returns exactly `Allowed`: the client text reads as an address, and some entry reads as a network containing it |
| OriginFilter.EmptyListRefuses | mac/open_in_safari_server.py:91-97 | with no subnets configured, every client is refused |
| OriginFilter.UnreadableClientRefused | mac/open_in_safari_server.py:87-90 | a client text that is not an IPv4 address is refused, whatever the list holds |
| OriginFilter.UnreadableEntrySkipped | mac/open_in_safari_server.py:92-96 | inserting an entry that does not read as a network anywhere in the list changes no decision |
| OriginFilter.SomeEntryAdmitsConcat | mac/open_in_safari_server.py:91-97 | a list admits an address exactly when one of its two parts does |
| OriginFilter.AddingEntryKeepsAllowed | mac/open_in_safari_server.py:91-94 | appending an entry never refuses a client that was allowed |
| OriginFilter.CidrEntryAdmits | mac/open_in_safari_server.py:93 | the entry "address/prefix" admits exactly the addresses that agree with its address on the first `prefix` bits |
| OriginFilter.FormattedClient | mac/open_in_safari_server.py:88 | a client given as an address's own text is judged by that address alone |
| Opener.OpenInSafari | mac/open_in_safari_server.py:99-120 | the reply to one URL, and the URL handed to `subprocess.run`; the lemmas below state when it succeeds, what it says and when the launch is attempted |
| Opener.FailureMessage | mac/open_in_safari_server.py:116-120 | the text of a failed launch; `ExitFailureExplained` states it for a non-zero exit |
| Opener.LaunchesOnlyPermitted | mac/open_in_safari_server.py:99-120 | the launch is attempted exactly for an http/https URL outside dry-run mode, and with that URL |
| Opener.PermittedNonEmpty | mac/open_in_safari_server.py:101 | a permitted URL has at least seven characters and starts with "http" |
| Opener.OkExactly | mac/open_in_safari_server.py:99-120 | the reply is a success exactly when the scheme is permitted and either dry run is on or `open` exited with 0 |
| Opener.RefusalIgnoresMode | mac/open_in_safari_server.py:101-105 | the scheme is checked first: a refused URL gets the same failure reply in every mode, whatever `open` would have done |
| Opener.UnlaunchedIgnoresLaunch | mac/open_in_safari_server.py:101-106 | when no launch is attempted, what it would have come to does not affect the reply |
| Opener.SuccessMessages | mac/open_in_safari_server.py:103-118 | a success says "DRY_RUN: OK" exactly when no launch was attempted, and "Opened in Safari" exactly when one was |
| Opener.ExitFailureExplained | mac/open_in_safari_server.py:116-117 | a non-zero exit is a failure whose text is the trimmed error output, or "Unknown error from 'open'" when that output is all whitespace |
| Router.ExtractToken | mac/open_in_safari_server.py:170-171 | the header, or "" when it was not sent; `MissingHeaderPassesOnlyWithoutToken` states what "" means for the token check |
| Router.RequestedUrl | mac/open_in_safari_server.py:204 | the stripped `url` field, "" when absent or falsy; `LaunchRequiresEveryGate` and `SchemeRefusedAsServerError` state how it is used |
| Router.HandlePost | mac/open_in_safari_server.py:192-214 | the answer to a POST; the lemmas below, from `PostRefusalOrder` to `DryRunLaunchesNothing`, state its gates, statuses and launches |
| Router.HandleGet | mac/open_in_safari_server.py:176-190 | the answer to a GET; `GetReports` and `PingPredictsPost` state what it reports |
| Router.PostRefusalOrder | mac/open_in_safari_server.py:192-214 | 403, 401, 404 and 400 are each given exactly when every earlier gate passed and this one failed |
| Router.PostStatuses | mac/open_in_safari_server.py:192-214 | a POST is answered only with 200, 400, 401, 403, 404 or 500, and the body is a success exactly for 200 |
| Router.LaunchRequiresEveryGate | mac/open_in_safari_server.py:192-214 | the launch is attempted exactly when every gate passed, the trimmed URL has a permitted scheme and dry run is off, and then with that trimmed URL |
| Router.PostOkExactly | mac/open_in_safari_server.py:192-214 | a POST gets 200 exactly when every gate passed, the scheme is permitted, and either dry run is on or `open` succeeded |
| Router.SchemeRefusedAsServerError | mac/open_in_safari_server.py:202-213 | a non-empty URL with another scheme passes every gate and is answered 500 with the scheme message, nothing launched |
| Router.UnauthorizedOnlyWithToken | mac/open_in_safari_server.py:197-201 | 401 is given only when a token is configured and the header differs from it |
| Router.EmptyTokenDisablesCheck | mac/open_in_safari_server.py:179 | with no token configured, POST never answers 401 and `/ping` always reports the token as accepted |
| Router.MissingHeaderPassesOnlyWithoutToken | mac/open_in_safari_server.py:170-171 | a missing header is read as "" and passes only when no token is configured |
| Router.GetReports | mac/open_in_safari_server.py:176-190 | GET never attempts a launch; `/ping` gets 200 with the version, the client address and true reports of `allowed`, `token_ok` and their conjunction; any other path gets 404 |
| Router.PingPredictsPost | mac/open_in_safari_server.py:176-201 | for a POST from the same client with the same header, `allowed` says it avoids 403 and `ok` says it avoids both 403 and 401 |
| Router.LoadedRelayDemandsToken | mac/open_in_safari_server.py:63-64 | with the defaults and any environment, a POST that attempts a launch carried the configured, non-empty token |
| Router.DryRunLaunchesNothing | mac/open_in_safari_server.py:103-105 | in dry-run mode no GET or POST attempts a launch |
| Scenarios.LabEntryAdmits | mac/open_in_safari_server.py:93 | the entry "10.0.0.0/24" admits exactly the addresses whose first three octets are 10.0.0 |
| Scenarios.InsideClient | mac/open_in_safari_server.py:86-97 | the client 10.0.0.5 is allowed by the list ["10.0.0.0/24"] |
| Scenarios.OutsideClient | mac/open_in_safari_server.py:86-97 | the client 192.168.1.5 is refused by the list ["10.0.0.0/24"] |
| Scenarios.ListedClientOpens | mac/open_in_safari_server.py:192-210 | the listed client with the right token gets a launch attempted for "https://example.com", and 200 exactly when `open` succeeds |
| Scenarios.OutsideClientRefused | mac/open_in_safari_server.py:194-196 | the same request from 192.168.1.5 is answered 403 and attempts no launch |
| Scenarios.WrongTokenRefused | mac/open_in_safari_server.py:197-201 | the listed client with a wrong token is answered 401 and attempts no launch |
| Scenarios.FileUrlRefused | mac/open_in_safari_server.py:202-213 | "file:///etc/passwd" from the listed client with the right token is answered 500 with the scheme message and attempts no launch |

## Left out

- HTTP itself is not modelled: sockets, the threading server, `main`, the CORS headers, `OPTIONS`, the server banner and writing the JSON bytes. Only the status and the body's fields are modelled.
- Logging (`log`, `print`) writes output. It decides nothing and is not part of this model.
- The child process is not run. `Launch` is whatever `subprocess.run` came to, and the 10-second timeout is one more way of raising.
- `_read_json` is not modelled. Content-Length, JSON and form decoding are reduced to the `url` field the handler reads. A falsy `url` value (`null`, `false`, `0`, `[]`, `{}`) becomes "" at line 204 and is answered 400, which a request without `url` covers. A truthy `url` that is not a string, and a JSON body that is not an object, raise an `AttributeError` at line 204; the model has no request for those.
- IPv6 addresses and networks are left out. Both `ParseAddress` and `ParseNetwork` accept IPv4 text only, so an IPv6 client is refused by every IPv4 list, as in the source, but an IPv6 entry is treated as unreadable.
- `int()` is modelled on ASCII digits only. Other Unicode decimal digits and Python's limit on the number of digits are not modelled.
- `lower()` is modelled on ASCII letters only. Non-ASCII case mapping is not modelled.
- Timing is not modelled. Whether the token comparison leaks timing lies outside what the model can state.
- `mac/open_in_safari.py` is not part of this model.
