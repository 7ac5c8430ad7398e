/**
 * The outbound URL safety gate (`SecurityManager.is_safe_url`): https only, hostname on a fixed
 * allowlist (exactly or as a subdomain), and no resolved address private or loopback. Every
 * failure, including a raised exception, answers "unsafe".
 */
module Security {
  import opened Wrappers
  import opened Text

  const AllowedDomains: seq<string> := [
    "hacker-news.firebaseio.com",
    "reddit.com", "www.reddit.com", "old.reddit.com",
    "itunes.apple.com", "apps.apple.com"
  ]

  /** What `urlparse` yields that the gate reads: the scheme and `.hostname` (None when absent). */
  datatype Url = Url(scheme: string, hostname: Option<string>)

  /** `socket.gethostbyname_ex(host)[2]`; None when the lookup raises. */
  type Resolver = string -> Option<seq<string>>

  /** `ip.is_private or ip.is_loopback` of `ipaddress.ip_address(ip)`; None when that raises. */
  type Classifier = string -> Option<bool>

  /**
   * Everything outside the program the gate consults: the URL parser (None when it raises),
   * the DNS answer at the `k`-th check of one harvest (answers may change between checks),
   * and the address classification.
   */
  datatype Net = Net(parse: string -> Option<Url>, dns: nat -> Resolver, classify: Classifier)

  /** Which check ended the validation; only `Safe` lets the request go out. */
  datatype Verdict = Safe | NotHttps | NotAllowlisted | PrivateAddress(ip: string) | Failed

  predicate MatchesDomain(host: string, allowed: string)
  {
    host == allowed || EndsWith(host, "." + allowed)
  }

  /** The allowlist stage, applied to the lower-cased hostname. */
  predicate Allowlisted(hostname: string)
  {
    exists i :: 0 <= i < |AllowedDomains| && MatchesDomain(Lower(hostname), AllowedDomains[i])
  }

  /** The address stage: walk the resolved list, stopping at the first blocked or unparsable one. */
  function AddressVerdict(ips: seq<string>, classify: Classifier): Verdict
  {
    if ips == [] then Safe
    else match classify(ips[0])
      case None => Failed
      case Some(blocked) =>
        if blocked then PrivateAddress(ips[0]) else AddressVerdict(ips[1..], classify)
  }

  /** The three checks in order, each run only when the previous one passed. */
  function Check(url: Option<Url>, resolve: Resolver, classify: Classifier): Verdict
  {
    match url
    case None => Failed
    case Some(u) =>
      if u.scheme != "https" then NotHttps
      else match u.hostname
        case None => Failed
        case Some(h) =>
          if !Allowlisted(h) then NotAllowlisted
          else match resolve(Lower(h))
            case None => Failed
            case Some(ips) => AddressVerdict(ips, classify)
  }

  /** The verdict on `url` when it is the `k`-th URL a harvest validates. */
  predicate SafeAt(net: Net, k: nat, url: string)
  {
    Check(net.parse(url), net.dns(k), net.classify) == Safe
  }

  /** `SecurityManager.is_safe_url`, with its two loops. */
  method IsSafeUrl(url: Option<Url>, resolve: Resolver, classify: Classifier) returns (safe: bool)
    ensures safe <==> Check(url, resolve, classify) == Safe
  {
    if url.None? {
      return false;
    }
    var u := url.value;
    if u.scheme != "https" {
      return false;
    }
    if u.hostname.None? {
      return false;
    }
    var hostname := Lower(u.hostname.value);

    var isAllowed := false;
    for i := 0 to |AllowedDomains|
      invariant !isAllowed
      invariant forall j :: 0 <= j < i ==> !MatchesDomain(hostname, AllowedDomains[j])
    {
      var allowed := AllowedDomains[i];
      if hostname == allowed || EndsWith(hostname, "." + allowed) {
        isAllowed := true;
        break;
      }
    }
    if !isAllowed {
      return false;
    }

    var answer := resolve(hostname);
    if answer.None? {
      return false;
    }
    var ips := answer.value;
    for k := 0 to |ips|
      invariant AddressVerdict(ips[k..], classify) == AddressVerdict(ips, classify)
    {
      assert ips[k..][1..] == ips[k + 1..];
      var c := classify(ips[k]);
      if c.None? || c.value {
        return false;
      }
    }
    return true;
  }

  /** The address stage passes exactly when every resolved address is known and public. */
  lemma {:induction false} AddressVerdictSafeIff(ips: seq<string>, classify: Classifier)
    ensures AddressVerdict(ips, classify) == Safe
        <==> forall i :: 0 <= i < |ips| ==> classify(ips[i]) == Some(false)
  {
    if ips != [] {
      AddressVerdictSafeIff(ips[1..], classify);
      assert forall i :: 1 <= i < |ips| ==> ips[1..][i - 1] == ips[i];
    }
  }

  /** A scheme other than exactly "https" is refused before the allowlist or DNS is consulted. */
  lemma SchemeCheckedFirst(u: Url, resolve: Resolver, classify: Classifier)
    requires u.scheme != "https"
    ensures Check(Some(u), resolve, classify) == NotHttps
  {
  }

  /** A hostname off the allowlist is refused whatever it would resolve to. */
  lemma AllowlistCheckedBeforeDns(u: Url, resolve: Resolver, classify: Classifier)
    requires u.scheme == "https" && u.hostname.Some? && !Allowlisted(u.hostname.value)
    ensures Check(Some(u), resolve, classify) == NotAllowlisted
  {
  }

  /**
   * The gate lets a URL through exactly when it parses, its scheme is "https", it has a
   * hostname on the allowlist, the lookup succeeds, and every resolved address is public.
   */
  lemma SafeIff(url: Option<Url>, resolve: Resolver, classify: Classifier)
    ensures Check(url, resolve, classify) == Safe
        <==> && url.Some? && url.value.scheme == "https"
             && url.value.hostname.Some? && Allowlisted(url.value.hostname.value)
             && resolve(Lower(url.value.hostname.value)).Some?
             && var ips := resolve(Lower(url.value.hostname.value)).value;
                forall i :: 0 <= i < |ips| ==> classify(ips[i]) == Some(false)
  {
    if url.Some? && url.value.scheme == "https" && url.value.hostname.Some?
       && Allowlisted(url.value.hostname.value)
       && resolve(Lower(url.value.hostname.value)).Some?
    {
      AddressVerdictSafeIff(resolve(Lower(url.value.hostname.value)).value, classify);
    }
  }

  /** One private or loopback address among the resolved ones is enough to refuse. */
  lemma PrivateAddressRefused(u: Url, resolve: Resolver, classify: Classifier, ip: string)
    requires u.hostname.Some? && resolve(Lower(u.hostname.value)).Some?
    requires ip in resolve(Lower(u.hostname.value)).value && classify(ip) == Some(true)
    ensures Check(Some(u), resolve, classify) != Safe
  {
    SafeIff(Some(u), resolve, classify);
  }
}

/** Concrete hostnames run through the allowlist stage. */
module AllowlistExamples {
  import opened Text
  import opened Security

  /** An exact allowlist entry passes the allowlist stage: any hostname that lower-cases to `www.reddit.com`. */
  lemma AllowlistAcceptsExact(h: string)
    requires Lower(h) == "www.reddit.com"
    ensures Allowlisted(h)
  {
    assert MatchesDomain(Lower(h), AllowedDomains[2]);
  }

  /** Case does not matter: the hostname is lower-cased first. */
  lemma AllowlistAcceptsUpperCase()
    ensures Allowlisted("Reddit.COM")
  {
    assert Lower("Reddit.COM") == "reddit.com";
    assert MatchesDomain("reddit.com", AllowedDomains[1]);
  }

  /** A subdomain of an entry passes: any hostname that lower-cases to `eu.old.reddit.com`. */
  lemma AllowlistAcceptsSubdomain(h: string)
    requires Lower(h) == "eu.old.reddit.com"
    ensures Allowlisted(h)
  {
    assert MatchesDomain(Lower(h), AllowedDomains[3]);
  }

  /** A name that ends in an allowed domain without the dot before it is refused. */
  lemma AllowlistRefusesLookAlike(h: string)
    requires Lower(h) == "evilreddit.com"
    ensures !Allowlisted(h)
  {
    var l := Lower(h);
    forall i | 0 <= i < |AllowedDomains| ensures !MatchesDomain(l, AllowedDomains[i]) {
      if i == 1 {
        assert l[|l| - 11] == 'l';
      }
    }
  }

  /** An allowed domain used as the first labels of a foreign name is refused. */
  lemma AllowlistRefusesPrefix(h: string)
    requires Lower(h) == "reddit.com.attacker.net"
    ensures !Allowlisted(h)
  {
    var l := Lower(h);
    forall i | 0 <= i < |AllowedDomains| ensures !MatchesDomain(l, AllowedDomains[i]) {
      assert l[|l| - 1] == 't';
    }
  }
}
