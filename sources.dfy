/** `is_allowed_source`: the allow-list of financial news sites. */
module Sources {
  import opened Text

  /** `ALLOWED_DOMAINS`: the thirteen domains an article URL must mention. */
  const AllowedDomains: seq<string> := [
    "mk.co.kr", "heraldcorp.com", "herald.co.kr", "fnnews.com", "mt.co.kr",
    "moneytoday.co.kr", "bizwatch.co.kr", "asiae.co.kr", "edaily.co.kr",
    "biz.chosun.com", "hankyung.com", "joseilbo.com", "sedaily.com"
  ]

  /** Python's `any(d in hay for d in domains)`, scanning the list from the front. */
  function AnyOccurs(hay: string, domains: seq<string>): (r: bool)
    ensures r <==> exists k :: 0 <= k < |domains| && Contains(hay, domains[k])
  {
    if domains == [] then false
    else if Contains(hay, domains[0]) then true
    else
      var r := AnyOccurs(hay, domains[1..]);
      assert forall k :: 1 <= k < |domains| ==> domains[k] == domains[1..][k - 1];
      r
  }

  /**
    A URL is accepted when it is not empty and some allowed domain occurs anywhere in
    its lower-cased text: host, path or query alike.
  */
  function IsAllowedSource(url: string): (r: bool)
    ensures url == "" ==> !r
    ensures r <==> url != "" && exists k :: 0 <= k < |AllowedDomains| && Contains(Lower(url), AllowedDomains[k])
  {
    url != "" && AnyOccurs(Lower(url), AllowedDomains)
  }

  predicate NoUpperAscii(s: string) {
    forall i :: 0 <= i < |s| ==> !('A' <= s[i] <= 'Z')
  }

  lemma LowerOfConcat(a: string, b: string)
    ensures Lower(a + b) == Lower(a) + Lower(b)
  {
  }

  lemma LowerOfLowercase(s: string)
    requires NoUpperAscii(s)
    ensures Lower(s) == s
  {
  }

  lemma DomainsAreLowercase()
    ensures forall k :: 0 <= k < |AllowedDomains| ==> NoUpperAscii(AllowedDomains[k])
  {
  }

  /**
    Any text around an allowed domain is accepted: the check is a substring test, so
    `https://example.com/?from=hankyung.com` passes as well as `https://www.hankyung.com/`.
  */
  lemma DomainAnywhereAccepted(before: string, k: nat, after: string)
    requires k < |AllowedDomains|
    ensures IsAllowedSource(before + AllowedDomains[k] + after)
  {
    var d := AllowedDomains[k];
    DomainsAreLowercase();
    LowerOfLowercase(d);
    LowerOfConcat(before + d, after);
    LowerOfConcat(before, d);
    assert Lower(before + d + after) == Lower(before) + d + Lower(after);
    assert Contains(d, d) by { assert OccursAt(d, d, 0); }
    ContainsInConcat(Lower(before), d, Lower(after), d);
  }

  lemma LowerIdempotent(s: string)
    ensures Lower(Lower(s)) == Lower(s)
  {
  }

  /** The test ignores ASCII case: a URL and its lower-case form are judged alike. */
  lemma {:induction false} CaseInsensitive(url: string)
    ensures IsAllowedSource(Lower(url)) == IsAllowedSource(url)
  {
    LowerIdempotent(url);
  }
}
