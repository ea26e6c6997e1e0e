# crabtive: account-existence checker, modelled in Dafny

crabtive checks whether a username has an account on each site of a
configured list. Every site has a `user_url` template. The checker turns the
template and the username into a URL, sends a GET request to it, and reads
the HTTP status: 200 means the account exists (`Available`), 404 means it
does not (`NotFound`), and any other code is reported as `Other(code)`. The
sites are checked one after the other, in configuration order. The first
site that cannot be reached aborts the whole check.

The model covers the library crate `core/src/lib.rs`:

- `errors.dfy` (module `Errors`): the `Option` and `Result` values the crate
  returns, `Vec::get`, and the message-only error `CrabtiveError`.
- `url_template.dfy` (module `UrlTemplate`): `str::split("{}")` as the
  function `Split`, its inverse `Join`, and `parse_user_url`.
- `status.dfy` (module `Status`): the status-code range, `CheckStatus` and
  `From<StatusCode> for CheckStatus`.
- `checker.dfy` (module `Checker`): `WebsiteInfo`, `Config` and its default,
  `CheckResult`, `check_account`, and `check_accounts` as a method with a
  loop. `CheckAll` is the reference definition of the loop: it checks the
  sites recursively. `ProbedUrls` lists the URLs a fail-fast check sends
  requests to.

The network is a parameter `send: string -> Option<StatusCode>`. It gives the
status the server answered with, or `None` when the request failed.
`fetch_status` is modelled on top of it, with its fixed error message.
`check_accounts` also returns a ghost `probed`: the URLs it handed to `send`,
in order. That is how "no site after the failing one is probed" is stated.
`From<Config> for AccountChecker` is the constructor of the datatype
`AccountChecker`. The checker is never mutated, so it is a datatype and not
a class. `CheckResult` holds a copy of the site instead of a borrowed
reference.

Three points where the code behaves differently from what one might
expect of such a tool; the model follows the code:

- An empty template is not an error. `split` on an empty string gives one
  empty piece, so `parse_user_url("", u)` is `Ok(u)`. The error branch after
  `get(0)` is kept as written and is proved unreachable.
- Sites are checked sequentially (`check_accounts` carries a TODO about
  parallelism), and the first failure aborts the check.
- The third verdict is `Other(code)`. It carries hyper's 16-bit code, and
  any code from 100 to 999 can reach it.

## Model

| member | source | states |
|---|---|---|
| `UrlTemplate.Split` | core/src/lib.rs:79 | Splitting on `{}` always gives at least one piece, even for the empty template, and the first piece is a prefix of the template |
| `UrlTemplate.JoinSplit` | core/src/lib.rs:79 | Putting the pieces back together with `{}` between them gives the template back, so the split loses nothing |
| `UrlTemplate.SplitPiecesMarkerFree` | core/src/lib.rs:79 | No piece of a split contains `{}`: every occurrence of the marker is consumed as a separator |
| `UrlTemplate.SplitJoin` | core/src/lib.rs:79 | Splitting a join of marker-free pieces gives the same pieces, so `Split` and `Join` are inverses |
| `UrlTemplate.SplitNoMarker` | core/src/lib.rs:79 | A template without `{}` splits into itself alone |
| `UrlTemplate.SplitFirstMarker` | core/src/lib.rs:79 | Matching is left to right: the text before the first `{}` is the first piece, and the rest is split on its own |
| `UrlTemplate.Decompose` | core/src/lib.rs:79 | Every template either has no `{}` or is a marker-free prefix, then `{}`, then anything, so `NoMarkerAppends` and `TextAfterFirstMarkerDropped` together cover every template |
| `Errors.Get` | core/src/lib.rs:80 | `Vec::get` gives `Some` exactly for an index inside the vector, and then the element at that index |
| `UrlTemplate.ParseUserUrl` | core/src/lib.rs:78-85 | `parse_user_url` never returns its error; the URL ends with the username verbatim, and what comes before it is a prefix of the template |
| `UrlTemplate.NoMarkerAppends` | core/src/lib.rs:79-84 | A template without `{}` gives the template followed by the username |
| `UrlTemplate.TextAfterFirstMarkerDropped` | core/src/lib.rs:79-84 | With a marker-free prefix `p`, the template `p + "{}" + rest` gives `p` followed by the username; whatever follows the first `{}` is dropped |
| `UrlTemplate.EmptyTemplate` | core/src/lib.rs:79-84 | The empty template gives the username itself, not an error |
| `UrlTemplate.GitHubExample` | core/src/lib.rs:157-162 | `"https://github.com/user/{}"` with `"username"` gives `"https://github.com/user/username"` |
| `Status.FromStatusCode` | core/src/lib.rs:124-133 | 200 gives exactly `Available`, 404 gives exactly `NotFound`, and every other code gives `Other` carrying that same code |
| `Status.CodeOfClassification` | core/src/lib.rs:124-133 | The code can be read back from the verdict |
| `Status.ClassificationInjective` | core/src/lib.rs:124-133 | Two codes with the same verdict are the same code |
| `Checker.FetchStatus` | core/src/lib.rs:71-75 | The request succeeds exactly when the transport answers, and then gives the answered status; otherwise the error is "Can't send request!" |
| `Checker.CheckAccount` | core/src/lib.rs:88-103 | A site's check succeeds exactly when the request to its URL is answered; the result then holds the site and the classification of the answer; otherwise the error is `fetch_status`'s "Can't send request!" |
| `Checker.AccountChecker.CheckAccounts` | core/src/lib.rs:106-115 | The loop with its accumulator and early return computes `CheckAll` of the configured sites, and the URLs it requests are `ProbedUrls` of them |
| `Checker.CheckAllSucceedsIff` | core/src/lib.rs:106-115 | The check succeeds exactly when every site answers; a failed check carries the transport error, "Can't send request!" |
| `Checker.CheckAllAligned` | core/src/lib.rs:106-115 | When every site answers, the check has one entry per site in configuration order; entry `i` holds site `i` and the classification of site `i`'s answer |
| `Checker.ProbedAllWhenAllAnswer` | core/src/lib.rs:110-113 | When every site answers, every site's URL is requested exactly once, in configuration order |
| `Checker.CheckAllFailFast` | core/src/lib.rs:92-112 | If the sites before `k` answer and site `k` does not, the check returns that error with no partial results, and only the URLs of sites 0 through `k` were requested |
| `Checker.FirstSilentSite` | core/src/lib.rs:110-113 | When some site does not answer, there is a first such site, so every failed check is the fail-fast case |
| `Checker.DefaultConfigChecksNothing` | core/src/lib.rs:21-25 | `Config::default` lists no site, and with it the check returns an empty list and no error, and requests nothing |

## Left out

- `fetch_status`'s HTTP and TLS work (hyper, hyper_tls, tokio): the client, the request builder and its `unwrap`, and the User-Agent header. The model keeps only its outcome, through the `send` parameter, and its fixed error message.
- `send` is a function of the URL. Within one check, the same URL is taken to get the same answer. Timing, redirects and timeouts are not modelled.
- `Config::try_from(PathBuf)`: reading the file and deserialising JSON with the `config` and `serde` crates, which are not visible here.
- The URI parse `.parse().unwrap()` in `check_account`: hyper's URI grammar is a foreign call, and it panics on a malformed URL. The model hands the URL string to `send` unchanged, and does not model the panic.
- `async`/`await`: the code runs sequentially, so the model is sequential too.
- `cli/src/main.rs`: argument parsing, printing and the `unwrap` at the entry point. It prints each `CheckResult` with `{result}`; the `Display` implementation this needs is not in the visible source and is not part of this model.
- The derived `Debug`, `Clone` and `Deserialize` implementations.
