/** The crawler's link filter, filterAndResolveTags in webcrawler/webcrawl.go:
    every href is parsed and resolved against the base URL, and only the
    results on the base URL's host are kept. URL parsing and reference
    resolution (section 5.2 of RFC 3986, Go's net/url) are not part of this
    model: they are supplied as functions. */
module Urls {
  import opened Wrappers
  import opened Collections

  /** A parsed URL, reduced to what the crawler looks at: its `Host`, and its
      `String()` form, which keys the visited set. */
  datatype Url = Url(host: string, text: string)

  /** A failed `url.Parse`, naming the string it was given. */
  datatype ParseError = ParseError(input: string)

  /** `url.Parse` and `(*url.URL).ResolveReference`. */
  datatype UrlLib = UrlLib(parse: string -> Option<Url>, resolve: (Url, Url) -> Url)

  /** Every string of `hrefs` parses. */
  predicate AllParse(lib: UrlLib, hrefs: seq<string>) {
    forall i | 0 <= i < |hrefs| :: lib.parse(hrefs[i]).Some?
  }

  /** Each href resolved against `base`, in order. */
  function Resolutions(lib: UrlLib, base: Url, hrefs: seq<string>): seq<Url>
    requires AllParse(lib, hrefs)
  {
    if hrefs == [] then []
    else [lib.resolve(base, lib.parse(hrefs[0]).value)] + Resolutions(lib, base, hrefs[1..])
  }

  /** The host test of the filter. */
  function OnHost(base: Url): Url -> bool {
    (u: Url) => u.host == base.host
  }

  /** filterAndResolveTags(baseUrl, urls). The base is parsed first; a base
      or any href that fails to parse makes the whole call fail and the links
      gathered so far are dropped with it. Otherwise the result holds the
      resolved links on the base's host, in the order of `hrefs`. */
  function FilterAndResolveTags(lib: UrlLib, baseUrl: string, hrefs: seq<string>): (r: Result<seq<Url>, ParseError>)
    ensures r.Failure? <==> lib.parse(baseUrl).None? || !AllParse(lib, hrefs)
    ensures lib.parse(baseUrl).None? ==> r == Failure(ParseError(baseUrl))
    ensures r.Failure? ==> (r.error.input == baseUrl || r.error.input in hrefs) && lib.parse(r.error.input).None?
    ensures r.Success? ==>
              var base := lib.parse(baseUrl).value;
              r.value == Filter(Resolutions(lib, base, hrefs), OnHost(base))
  {
    match lib.parse(baseUrl)
    case None => Failure(ParseError(baseUrl))
    case Some(base) => ResolveFrom(lib, base, hrefs, 0, [])
  }

  /** The loop `for _, urlString := range urls` from position `i`, with
      `acc` the links kept so far. */
  function ResolveFrom(lib: UrlLib, base: Url, hrefs: seq<string>, i: nat, acc: seq<Url>): (r: Result<seq<Url>, ParseError>)
    requires i <= |hrefs|
    ensures r.Failure? <==> !AllParse(lib, hrefs[i..])
    ensures r.Failure? ==> r.error.input in hrefs[i..] && lib.parse(r.error.input).None?
    ensures r.Success? ==> AllParse(lib, hrefs[i..]) && r.value == acc + Filter(Resolutions(lib, base, hrefs[i..]), OnHost(base))
    decreases |hrefs| - i
  {
    if i == |hrefs| then Success(acc)
    else
      match lib.parse(hrefs[i])
      case None =>
        ResolveFails(lib, hrefs, i);
        Failure(ParseError(hrefs[i]))
      case Some(parsed) =>
        var r := ResolveFrom(lib, base, hrefs, i + 1, acc + Kept(lib, base, hrefs[i]));
        ResolveStep(lib, base, hrefs, i, acc, r);
        r
  }

  /** Position `i` of the href loop, when its href parses: what the loop
      promises from `i + 1`, after keeping what this href gives, is what it
      promises from `i`. */
  lemma ResolveStep(lib: UrlLib, base: Url, hrefs: seq<string>, i: nat, acc: seq<Url>, r: Result<seq<Url>, ParseError>)
    requires i < |hrefs| && lib.parse(hrefs[i]).Some?
    requires r.Failure? <==> !AllParse(lib, hrefs[i + 1..])
    requires r.Failure? ==> r.error.input in hrefs[i + 1..] && lib.parse(r.error.input).None?
    requires r.Success? ==>
               (&& AllParse(lib, hrefs[i + 1..])
                && r.value == acc + Kept(lib, base, hrefs[i]) + Filter(Resolutions(lib, base, hrefs[i + 1..]), OnHost(base)))
    ensures r.Failure? <==> !AllParse(lib, hrefs[i..])
    ensures r.Failure? ==> r.error.input in hrefs[i..] && lib.parse(r.error.input).None?
    ensures r.Success? ==> AllParse(lib, hrefs[i..]) && r.value == acc + Filter(Resolutions(lib, base, hrefs[i..]), OnHost(base))
  {
    ParseStep(lib, hrefs, i);
    if r.Success? {
      KeptStep(lib, base, hrefs, i, acc, r.value);
    }
  }

  /** The successful half of `ResolveStep`. */
  lemma KeptStep(lib: UrlLib, base: Url, hrefs: seq<string>, i: nat, acc: seq<Url>, v: seq<Url>)
    requires i < |hrefs| && AllParse(lib, hrefs[i..]) && AllParse(lib, hrefs[i + 1..])
    requires v == acc + Kept(lib, base, hrefs[i]) + Filter(Resolutions(lib, base, hrefs[i + 1..]), OnHost(base))
    ensures v == acc + Filter(Resolutions(lib, base, hrefs[i..]), OnHost(base))
  {
    FilterStep(lib, base, hrefs, i);
    Regroup(acc, Kept(lib, base, hrefs[i]), Filter(Resolutions(lib, base, hrefs[i + 1..]), OnHost(base)),
            v, Filter(Resolutions(lib, base, hrefs[i..]), OnHost(base)));
  }

  lemma Regroup(acc: seq<Url>, kept: seq<Url>, later: seq<Url>, v: seq<Url>, w: seq<Url>)
    requires v == acc + kept + later && w == kept + later
    ensures v == acc + w
  {
  }

  /** What the loop keeps of one href that parses: its resolution, when on
      the base's host. */
  function Kept(lib: UrlLib, base: Url, href: string): seq<Url>
    requires lib.parse(href).Some?
  {
    var resolved := lib.resolve(base, lib.parse(href).value);
    if resolved.host == base.host then [resolved] else []
  }

  /** Position `i` of the href loop, when its href does not parse. */
  lemma ResolveFails(lib: UrlLib, hrefs: seq<string>, i: nat)
    requires i < |hrefs| && lib.parse(hrefs[i]).None?
    ensures !AllParse(lib, hrefs[i..]) && hrefs[i] in hrefs[i..]
  {
    assert hrefs[i..][0] == hrefs[i];
  }

  /** When the href at `i` parses, everything from `i` parses exactly when
      everything after it does, and whatever fails after it fails from `i`. */
  lemma ParseStep(lib: UrlLib, hrefs: seq<string>, i: nat)
    requires i < |hrefs| && lib.parse(hrefs[i]).Some?
    ensures AllParse(lib, hrefs[i..]) <==> AllParse(lib, hrefs[i + 1..])
    ensures forall h | h in hrefs[i + 1..] :: h in hrefs[i..]
  {
    var here, rest := hrefs[i..], hrefs[i + 1..];
    assert here == [hrefs[i]] + rest;
  }

  /** The kept links from `i` are those of the href at `i`, then the rest's. */
  lemma FilterStep(lib: UrlLib, base: Url, hrefs: seq<string>, i: nat)
    requires i < |hrefs| && AllParse(lib, hrefs[i..])
    ensures AllParse(lib, hrefs[i + 1..])
    ensures Filter(Resolutions(lib, base, hrefs[i..]), OnHost(base)) ==
            Kept(lib, base, hrefs[i]) + Filter(Resolutions(lib, base, hrefs[i + 1..]), OnHost(base))
  {
    var here, rest := hrefs[i..], hrefs[i + 1..];
    assert here[1..] == rest && here[0] == hrefs[i];
    assert lib.parse(here[0]).Some?;
    assert AllParse(lib, rest) by {
      forall j | 0 <= j < |rest| ensures lib.parse(rest[j]).Some? {
        assert rest[j] == here[j + 1];
      }
    }
  }

  /** What a successful filter promises, without reference to `Filter`: only
      links on the base's host, every resolved link on that host, and no
      reordering. */
  lemma {:induction false} FilterKeepsSameHost(lib: UrlLib, baseUrl: string, hrefs: seq<string>)
    requires FilterAndResolveTags(lib, baseUrl, hrefs).Success?
    ensures var base := lib.parse(baseUrl).value;
            var kept := FilterAndResolveTags(lib, baseUrl, hrefs).value;
            && (forall u | u in kept :: u.host == base.host)
            && (forall i | 0 <= i < |hrefs| ::
                  var u := lib.resolve(base, lib.parse(hrefs[i]).value);
                  u.host == base.host ==> u in kept)
            && Subsequence(kept, Resolutions(lib, base, hrefs))
  {
    var base := lib.parse(baseUrl).value;
    var all := Resolutions(lib, base, hrefs);
    FilterIsSubsequence(all, OnHost(base));
    forall i | 0 <= i < |hrefs|
      ensures lib.resolve(base, lib.parse(hrefs[i]).value) in all
    {
      ResolutionsAt(lib, base, hrefs, i);
    }
  }

  lemma {:induction false} ResolutionsAt(lib: UrlLib, base: Url, hrefs: seq<string>, i: nat)
    requires AllParse(lib, hrefs) && i < |hrefs|
    ensures |Resolutions(lib, base, hrefs)| == |hrefs|
    ensures Resolutions(lib, base, hrefs)[i] == lib.resolve(base, lib.parse(hrefs[i]).value)
    decreases i
  {
    if i > 0 {
      assert AllParse(lib, hrefs[1..]) by {
        forall j | 0 <= j < |hrefs[1..]| ensures lib.parse(hrefs[1..][j]).Some? {
          assert hrefs[1..][j] == hrefs[j + 1];
        }
      }
      ResolutionsAt(lib, base, hrefs[1..], i - 1);
    } else {
      ResolutionsLength(lib, base, hrefs);
    }
  }

  lemma {:induction false} ResolutionsLength(lib: UrlLib, base: Url, hrefs: seq<string>)
    requires AllParse(lib, hrefs)
    ensures |Resolutions(lib, base, hrefs)| == |hrefs|
    decreases |hrefs|
  {
    if hrefs != [] {
      assert AllParse(lib, hrefs[1..]) by {
        forall j | 0 <= j < |hrefs[1..]| ensures lib.parse(hrefs[1..][j]).Some? {
          assert hrefs[1..][j] == hrefs[j + 1];
        }
      }
      ResolutionsLength(lib, base, hrefs[1..]);
    }
  }

  /** A single unparsable href discards the whole list, however many other
      links would have been kept. */
  lemma OneBadHrefDiscardsAll(lib: UrlLib, baseUrl: string, hrefs: seq<string>, i: nat)
    requires i < |hrefs| && lib.parse(hrefs[i]).None?
    ensures FilterAndResolveTags(lib, baseUrl, hrefs).Failure?
    ensures FilterAndResolveTags(lib, baseUrl, hrefs).GetOr([]) == []
  {
  }
}
