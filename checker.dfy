/** The configured sites and the account checker: for one username it probes
    every site in configuration order and classifies each answer, giving up at
    the first site that cannot be reached. */
module Checker {
  import opened Errors
  import opened UrlTemplate
  import opened Status

  /** One configured site: its display name, its home page (informational
      only) and the template of a user's page. */
  datatype WebsiteInfo = WebsiteInfo(name: string, baseUrl: string, userUrl: string)

  /** The configuration: the sites to check, in the order they are listed. */
  datatype Config = Config(websites: seq<WebsiteInfo>)

  /** `Config::default`: no site at all. */
  function DefaultConfig(): (c: Config)
    ensures c.websites == []
  {
    Config([])
  }

  /** The verdict for one site. The source borrows the site; here the result
      holds a copy of it. */
  datatype CheckResult = CheckResult(info: WebsiteInfo, status: CheckStatus)

  /** The network: what sending a GET request to a URL gives, either the
      status the server answered with or `None` when the request could not be
      sent or answered. */
  type Transport = string -> Option<StatusCode>

  /** The error `fetch_status` returns when the request fails. */
  const SendError: CrabtiveError := CrabtiveError("Can't send request!")

  /** `fetch_status` with the request itself done by `send`: the answered
      status, or the fixed error when the request fails. */
  function FetchStatus(url: string, send: Transport): (r: Result<StatusCode, CrabtiveError>)
    ensures r.Ok? <==> send(url).Some?
    ensures r.Ok? ==> r.value == send(url).value
    ensures r.Err? ==> r.error == SendError
  {
    match send(url)
    case None => Err(SendError)
    case Some(status) => Ok(status)
  }

  /** The URL probed for `username` on `website`. */
  function ProbeUrl(website: WebsiteInfo, username: string): (url: string) {
    ParseUserUrl(website.userUrl, username).value
  }

  /** The URLs of all the given sites for `username`, in order. */
  function Urls(websites: seq<WebsiteInfo>, username: string): (urls: seq<string>)
    ensures |urls| == |websites|
    ensures forall i :: 0 <= i < |websites| ==> urls[i] == ProbeUrl(websites[i], username)
  {
    seq(|websites|, i requires 0 <= i < |websites| => ProbeUrl(websites[i], username))
  }

  /** Every one of the given sites answers the request for `username`. */
  ghost predicate AllAnswered(websites: seq<WebsiteInfo>, username: string, send: Transport) {
    forall i :: 0 <= i < |websites| ==> send(ProbeUrl(websites[i], username)).Some?
  }

  /** `AccountChecker::check_account`: build the URL, probe it and classify the
      answer; an unreachable site is an error. */
  function CheckAccount(website: WebsiteInfo, username: string, send: Transport)
    : (r: Result<CheckResult, CrabtiveError>)
    ensures r.Ok? <==> send(ProbeUrl(website, username)).Some?
    ensures r.Ok? ==> r.value.info == website
    ensures r.Ok? ==> r.value.status == FromStatusCode(send(ProbeUrl(website, username)).value)
    ensures r.Err? ==> r.error == SendError
  {
    match ParseUserUrl(website.userUrl, username)
    case Err(e) => Err(e)
    case Ok(url) =>
      var statusCode :- FetchStatus(url, send);
      Ok(CheckResult(website, FromStatusCode(statusCode)))
  }

  /** What checking the given sites in order means: the first site's result
      followed by the others', or the first error met. */
  function CheckAll(websites: seq<WebsiteInfo>, username: string, send: Transport)
    : (r: Result<seq<CheckResult>, CrabtiveError>)
    decreases |websites|
  {
    if websites == [] then Ok([])
    else
      var first :- CheckAccount(websites[0], username, send);
      var others :- CheckAll(websites[1..], username, send);
      Ok([first] + others)
  }

  /** The URLs handed to the network, in order, when the given sites are
      checked one after the other and the first failure stops the check. */
  ghost function ProbedUrls(websites: seq<WebsiteInfo>, username: string, send: Transport): (urls: seq<string>)
    decreases |websites|
  {
    if websites == [] then []
    else
      [ProbeUrl(websites[0], username)]
        + if CheckAccount(websites[0], username, send).Ok?
          then ProbedUrls(websites[1..], username, send)
          else []
  }

  /** Results already gathered, put in front of those still to come. */
  function Prepend(done: seq<CheckResult>, rest: Result<seq<CheckResult>, CrabtiveError>)
    : (r: Result<seq<CheckResult>, CrabtiveError>)
  {
    match rest
    case Ok(others) => Ok(done + others)
    case Err(e) => Err(e)
  }

  /** Checking one more site after `done`: its error ends the check, its
      result joins the others. */
  lemma CheckAllStep(done: seq<CheckResult>, websites: seq<WebsiteInfo>, username: string, send: Transport)
    requires websites != []
    ensures Prepend(done, CheckAll(websites, username, send))
         == match CheckAccount(websites[0], username, send)
            case Err(e) => Err(e)
            case Ok(c) => Prepend(done + [c], CheckAll(websites[1..], username, send))
  {
    var first := CheckAccount(websites[0], username, send);
    var others := CheckAll(websites[1..], username, send);
    if first.Ok? && others.Ok? {
      assert done + ([first.value] + others.value) == (done + [first.value]) + others.value;
    }
  }

  /** Requesting one more site's URL after `sent`; only when the site answers
      does the check go on to the sites after it. */
  lemma ProbedStep(sent: seq<string>, websites: seq<WebsiteInfo>, username: string, send: Transport)
    requires websites != []
    ensures sent + ProbedUrls(websites, username, send)
         == if CheckAccount(websites[0], username, send).Ok?
            then (sent + [ProbeUrl(websites[0], username)]) + ProbedUrls(websites[1..], username, send)
            else sent + [ProbeUrl(websites[0], username)]
  {
    var url := ProbeUrl(websites[0], username);
    if CheckAccount(websites[0], username, send).Ok? {
      var others := ProbedUrls(websites[1..], username, send);
      assert sent + ([url] + others) == (sent + [url]) + others;
    } else {
      assert [url] + [] == [url];
    }
  }

  /** The checker over one configuration (`From<Config> for AccountChecker` is
      this datatype's constructor). */
  datatype AccountChecker = AccountChecker(config: Config) {

    /** `check_accounts`: checks the sites one after the other, pushing each
        result onto an accumulator and returning at the first error. `probed`
        records the URLs requested, in order. */
    method CheckAccounts(username: string, send: Transport)
      returns (result: Result<seq<CheckResult>, CrabtiveError>, ghost probed: seq<string>)
      ensures result == CheckAll(config.websites, username, send)
      ensures probed == ProbedUrls(config.websites, username, send)
    {
      var websites := config.websites;
      var acc: seq<CheckResult> := [];
      probed := [];
      assert websites[0..] == websites;
      assert Prepend([], CheckAll(websites, username, send)) == CheckAll(websites, username, send) by {
        var all := CheckAll(websites, username, send);
        if all.Ok? {
          assert [] + all.value == all.value;
        }
      }
      for i := 0 to |websites|
        invariant CheckAll(websites, username, send) == Prepend(acc, CheckAll(websites[i..], username, send))
        invariant ProbedUrls(websites, username, send) == probed + ProbedUrls(websites[i..], username, send)
      {
        assert websites[i..][0] == websites[i] && websites[i..][1..] == websites[i + 1..];
        CheckAllStep(acc, websites[i..], username, send);
        ProbedStep(probed, websites[i..], username, send);
        probed := probed + [ProbeUrl(websites[i], username)];
        var checked :- CheckAccount(websites[i], username, send);
        acc := acc + [checked];
      }
      assert websites[|websites|..] == [] && acc + [] == acc;
      result := Ok(acc);
    }
  }

  /** All sites answer exactly when the first does and all the others do. */
  lemma AllAnsweredCons(websites: seq<WebsiteInfo>, username: string, send: Transport)
    requires websites != []
    ensures AllAnswered(websites, username, send)
        <==> send(ProbeUrl(websites[0], username)).Some? && AllAnswered(websites[1..], username, send)
  {
    var tail := websites[1..];
    if send(ProbeUrl(websites[0], username)).Some? && AllAnswered(tail, username, send) {
      forall i | 0 <= i < |websites| ensures send(ProbeUrl(websites[i], username)).Some? {
        if i > 0 {
          assert websites[i] == tail[i - 1];
        }
      }
    }
    if AllAnswered(websites, username, send) {
      forall i | 0 <= i < |tail| ensures send(ProbeUrl(tail[i], username)).Some? {
        assert tail[i] == websites[i + 1];
      }
    }
  }

  /** The check succeeds exactly when every site answers; when it fails, the
      error is the one `fetch_status` reports. */
  lemma {:induction false} CheckAllSucceedsIff(websites: seq<WebsiteInfo>, username: string, send: Transport)
    ensures CheckAll(websites, username, send).Ok? <==> AllAnswered(websites, username, send)
    ensures CheckAll(websites, username, send).Err? ==> CheckAll(websites, username, send).error == SendError
    decreases |websites|
  {
    if websites != [] {
      CheckAllSucceedsIff(websites[1..], username, send);
      AllAnsweredCons(websites, username, send);
    }
  }

  /** A successful check has one result per site, in configuration order:
      entry `i` holds site `i` and the classification of its answer. */
  lemma {:induction false} CheckAllAligned(websites: seq<WebsiteInfo>, username: string, send: Transport)
    requires AllAnswered(websites, username, send)
    ensures CheckAll(websites, username, send).Ok?
    ensures var results := CheckAll(websites, username, send).value;
      && |results| == |websites|
      && forall i :: 0 <= i < |websites| ==>
           results[i] == CheckResult(websites[i], FromStatusCode(send(ProbeUrl(websites[i], username)).value))
    decreases |websites|
  {
    if websites != [] {
      var tail := websites[1..];
      AllAnsweredCons(websites, username, send);
      CheckAllAligned(tail, username, send);
      var results := CheckAll(websites, username, send).value;
      forall i | 0 <= i < |websites|
        ensures results[i] == CheckResult(websites[i], FromStatusCode(send(ProbeUrl(websites[i], username)).value))
      {
        if i > 0 {
          assert results[i] == CheckAll(tail, username, send).value[i - 1];
          assert websites[i] == tail[i - 1];
        }
      }
    }
  }

  /** When every site answers, every site's URL is requested, once and in
      configuration order. */
  lemma {:induction false} ProbedAllWhenAllAnswer(websites: seq<WebsiteInfo>, username: string, send: Transport)
    requires AllAnswered(websites, username, send)
    ensures ProbedUrls(websites, username, send) == Urls(websites, username)
    decreases |websites|
  {
    if websites != [] {
      var tail := websites[1..];
      AllAnsweredCons(websites, username, send);
      ProbedAllWhenAllAnswer(tail, username, send);
      assert [ProbeUrl(websites[0], username)] + Urls(tail, username) == Urls(websites, username);
    }
  }

  /** Fail-fast: when sites `0..k` answer and site `k` does not, the check
      returns `fetch_status`'s error, with no partial results, and no site after
      `k` is probed. */
  lemma {:induction false} CheckAllFailFast(websites: seq<WebsiteInfo>, username: string, send: Transport, k: nat)
    requires k < |websites|
    requires AllAnswered(websites[..k], username, send)
    requires send(ProbeUrl(websites[k], username)).None?
    ensures CheckAll(websites, username, send) == Err(SendError)
    ensures ProbedUrls(websites, username, send) == Urls(websites[..k + 1], username)
    decreases k
  {
    if k > 0 {
      var tail := websites[1..];
      assert send(ProbeUrl(websites[..k][0], username)).Some?;
      assert tail[..k - 1] == websites[1..k];
      var before := tail[..k - 1];
      forall i | 0 <= i < |before| ensures send(ProbeUrl(before[i], username)).Some? {
        assert before[i] == websites[..k][i + 1];
      }
      assert tail[k - 1] == websites[k];
      CheckAllFailFast(tail, username, send, k - 1);
      assert [ProbeUrl(websites[0], username)] + Urls(tail[..k], username) == Urls(websites[..k + 1], username);
    }
  }

  /** When some site does not answer there is a first such site, so the
      fail-fast lemma applies to every failing check. */
  lemma {:induction false} FirstSilentSite(websites: seq<WebsiteInfo>, username: string, send: Transport)
    requires !AllAnswered(websites, username, send)
    ensures exists k :: 0 <= k < |websites| && AllAnswered(websites[..k], username, send)
                        && send(ProbeUrl(websites[k], username)).None?
    decreases |websites|
  {
    if send(ProbeUrl(websites[0], username)).None? {
      assert AllAnswered(websites[..0], username, send);
    } else {
      var tail := websites[1..];
      AllAnsweredCons(websites, username, send);
      FirstSilentSite(tail, username, send);
      var k :| 0 <= k < |tail| && AllAnswered(tail[..k], username, send)
               && send(ProbeUrl(tail[k], username)).None?;
      var before, before' := websites[..k + 1], tail[..k];
      forall i | 0 <= i < |before| ensures send(ProbeUrl(before[i], username)).Some? {
        if i > 0 {
          assert before[i] == before'[i - 1];
        }
      }
      assert websites[k + 1] == tail[k];
    }
  }

  /** With the default, empty configuration the check probes nothing and
      returns no results and no error. */
  lemma DefaultConfigChecksNothing(username: string, send: Transport)
    ensures AccountChecker(DefaultConfig()).config.websites == []
    ensures CheckAll(DefaultConfig().websites, username, send) == Ok([])
    ensures ProbedUrls(DefaultConfig().websites, username, send) == []
  {
  }
}
