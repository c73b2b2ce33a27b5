/**
 * TanitjobsSpider: the listing page's links to follow, the detail page's
 * fields (the meta-or-page fallbacks for title and date, the joined
 * description, the fixed source), and clean_item's whitespace cleanup,
 * date extraction and five defaults. Pages arrive as the texts the CSS
 * selectors return; URL resolution is a function the spider is given.
 */
module Tanitjobs {
  import opened Text
  import opened Items
  import opened Dates

  // ---------------------------------------------------------------------
  // The listing page
  // ---------------------------------------------------------------------

  /** One article.listing-item: the link's href and the title and date
      texts, None where the selector finds nothing. */
  datatype Listing = Listing(link: Option<string>, title: Option<string>, date: Option<string>)

  /** A listing page: its listings and the rel="next" link. */
  datatype ListingPage = ListingPage(listings: seq<Listing>, nextPage: Option<string>)

  /** A request parse yields: a detail page carrying the listing's title
      and date as meta, or the next listing page. */
  datatype Request =
    | Detail(url: string, metaTitle: Option<string>, metaDate: Option<string>)
    | NextListing(url: string)

  /** The detail request for a listing with a link. */
  function Follow(l: Listing, urljoin: string -> string): Request
    requires IsTruthy(l.link)
  {
    Detail(urljoin(l.link.value), l.title, l.date)
  }

  /** The detail requests of parse's loop over the listings, in order. */
  function DetailRequests(ls: seq<Listing>, urljoin: string -> string): seq<Request>
    decreases |ls|
  {
    if ls == [] then []
    else
      var last := ls[|ls| - 1];
      DetailRequests(ls[..|ls| - 1], urljoin) + (if IsTruthy(last.link) then [Follow(last, urljoin)] else [])
  }

  /** Everything parse yields for a listing page. */
  function Requests(page: ListingPage, urljoin: string -> string): seq<Request> {
    DetailRequests(page.listings, urljoin)
      + if IsTruthy(page.nextPage) then [NextListing(urljoin(page.nextPage.value))] else []
  }

  /** q is the request for some listing of ls that has a non-empty link. */
  ghost predicate FollowsSome(ls: seq<Listing>, urljoin: string -> string, q: Request) {
    exists i :: 0 <= i < |ls| && IsTruthy(ls[i].link) && q == Follow(ls[i], urljoin)
  }

  /** Every detail request comes from a listing with a non-empty link, and
      there are at most as many as listings. */
  lemma {:induction false} DetailRequestsSound(ls: seq<Listing>, urljoin: string -> string)
    ensures |DetailRequests(ls, urljoin)| <= |ls|
    ensures forall k :: 0 <= k < |DetailRequests(ls, urljoin)| ==>
              FollowsSome(ls, urljoin, DetailRequests(ls, urljoin)[k])
    decreases |ls|
  {
    if ls != [] {
      var init, last := ls[..|ls| - 1], ls[|ls| - 1];
      DetailRequestsSound(init, urljoin);
      var r := DetailRequests(ls, urljoin);
      var r0 := DetailRequests(init, urljoin);
      var tail := if IsTruthy(last.link) then [Follow(last, urljoin)] else [];
      assert r == r0 + tail;
      forall k | 0 <= k < |r| ensures FollowsSome(ls, urljoin, r[k]) {
        if k < |r0| {
          assert r[k] == r0[k] && FollowsSome(init, urljoin, r0[k]);
          var i :| 0 <= i < |init| && IsTruthy(init[i].link) && r0[k] == Follow(init[i], urljoin);
          assert ls[i] == init[i];
        } else {
          assert tail != [] && r[k] == tail[0];
          assert IsTruthy(ls[|ls| - 1].link) && r[k] == Follow(ls[|ls| - 1], urljoin);
        }
      }
    }
  }

  /** Every listing with a non-empty link is followed. */
  lemma {:induction false} DetailRequestsComplete(ls: seq<Listing>, urljoin: string -> string)
    ensures forall i :: 0 <= i < |ls| && IsTruthy(ls[i].link) ==>
              Follow(ls[i], urljoin) in DetailRequests(ls, urljoin)
    decreases |ls|
  {
    if ls != [] {
      var init := ls[..|ls| - 1];
      DetailRequestsComplete(init, urljoin);
      forall i | 0 <= i < |ls| && IsTruthy(ls[i].link)
        ensures Follow(ls[i], urljoin) in DetailRequests(ls, urljoin)
      {
        if i < |init| { assert ls[i] == init[i]; }
      }
    }
  }

  // ---------------------------------------------------------------------
  // The detail page
  // ---------------------------------------------------------------------

  /** What parse_job_details reads: the response URL, the meta values the
      request carried, and the first text of each selector (None where it
      finds nothing); the description is every text node it selects. */
  datatype DetailPage = DetailPage(
    url: string,
    metaTitle: Option<string>,
    metaDate: Option<string>,
    title: Option<string>,
    company: Option<string>,
    location: Option<string>,
    sector: Option<string>,
    descriptionParts: seq<string>,
    salary: Option<string>,
    contractType: Option<string>,
    date: Option<string>)

  /** Python's `a or b` on optional strings. */
  function Or(a: Option<string>, b: Option<string>): (r: Option<string>)
    ensures IsTruthy(a) ==> r == a
    ensures r == a || r == b
    ensures IsTruthy(r) <==> IsTruthy(a) || IsTruthy(b)
  {
    if IsTruthy(a) then a else b
  }

  /** What one part contributes: its stripped text, when that is non-empty. */
  function Piece(p: string): seq<string> {
    if Strip(p) != "" then [Strip(p)] else []
  }

  /** [text.strip() for text in parts if text.strip()] */
  function Pieces(parts: seq<string>): seq<string>
    decreases |parts|
  {
    if parts == [] then [] else Piece(parts[0]) + Pieces(parts[1..])
  }

  /** A part contributes its stripped text exactly when that is non-empty. */
  lemma PiecesSingle(p: string)
    ensures Pieces([p]) == if Strip(p) != "" then [Strip(p)] else []
  {
    assert [p][1..] == [];
  }

  /** The comprehension runs over the parts in order: the pieces of a
      concatenation are the pieces of each half, one after the other. */
  lemma {:induction false} PiecesAppend(a: seq<string>, b: seq<string>)
    ensures Pieces(a + b) == Pieces(a) + Pieces(b)
    decreases |a|
  {
    if a == [] {
      assert a + b == b;
    } else {
      assert (a + b)[0] == a[0] && (a + b)[1..] == a[1..] + b;
      PiecesAppend(a[1..], b);
    }
  }

  /** ' '.join(pieces).strip() */
  function JoinDescription(parts: seq<string>): string {
    Strip(Join(" ", Pieces(parts)))
  }

  /** A non-empty string with no whitespace at either end. */
  predicate Trimmed(w: string) {
    w != [] && !IsSpace(w[0]) && !IsSpace(w[|w| - 1])
  }

  /** Every piece is non-empty and stripped, and there are at most as
      many pieces as parts. */
  lemma {:induction false} PiecesSpec(parts: seq<string>)
    ensures |Pieces(parts)| <= |parts|
    ensures forall k :: 0 <= k < |Pieces(parts)| ==> Trimmed(Pieces(parts)[k])
    decreases |parts|
  {
    if parts != [] {
      PiecesSpec(parts[1..]);
      var p := Pieces(parts);
      var rest := Pieces(parts[1..]);
      if Strip(parts[0]) != "" {
        assert p == [Strip(parts[0])] + rest;
        forall k | 1 <= k < |p| ensures Trimmed(p[k]) { assert p[k] == rest[k - 1]; }
      }
    }
  }

  /** There are no pieces exactly when every part is whitespace. */
  lemma {:induction false} PiecesEmptyIff(parts: seq<string>)
    ensures Pieces(parts) == [] <==> forall i :: 0 <= i < |parts| ==> AllSpace(parts[i])
    decreases |parts|
  {
    if parts != [] {
      PiecesEmptyIff(parts[1..]);
      StripEmptyIff(parts[0]);
      if forall i :: 0 <= i < |parts| - 1 ==> AllSpace(parts[1..][i]) {
        forall i | 1 <= i < |parts| ensures AllSpace(parts[i]) { assert parts[i] == parts[1..][i - 1]; }
      }
    }
  }

  /** Joining non-empty stripped words with spaces leaves nothing to strip. */
  lemma {:induction false} JoinTrimmed(ws: seq<string>)
    requires forall k :: 0 <= k < |ws| ==> Trimmed(ws[k])
    ensures var t := Join(" ", ws);
            (ws == [] <==> t == []) && (t != [] ==> !IsSpace(t[0]) && !IsSpace(t[|t| - 1]))
    decreases |ws|
  {
    if |ws| > 1 {
      JoinTrimmed(ws[1..]);
      var j := Join(" ", ws[1..]);
      assert Trimmed(ws[0]);
      assert Join(" ", ws) == ws[0] + " " + j;
      assert (ws[0] + " " + j)[0] == ws[0][0];
    } else if |ws| == 1 {
      assert Trimmed(ws[0]);
    }
  }

  /** str.strip() leaves a string with no whitespace at its ends as it is. */
  lemma StripTrimmed(t: string)
    requires t != [] ==> !IsSpace(t[0]) && !IsSpace(t[|t| - 1])
    ensures Strip(t) == t
  {
  }

  /** The description is the non-blank parts, each stripped, separated by
      single spaces; it is empty exactly when every part is whitespace. */
  lemma DescriptionSpec(parts: seq<string>)
    ensures JoinDescription(parts) == Join(" ", Pieces(parts))
    ensures JoinDescription(parts) == "" <==> forall i :: 0 <= i < |parts| ==> AllSpace(parts[i])
  {
    PiecesSpec(parts);
    PiecesEmptyIff(parts);
    JoinTrimmed(Pieces(parts));
    StripTrimmed(Join(" ", Pieces(parts)));
  }

  /** The fields parse_job_details assigns, in its order, before clean_item. */
  function DetailFields(p: DetailPage): Values {
    var m := Put(map[], Title, Or(p.metaTitle, p.title));
    var m := Put(m, Company, p.company);
    var m := Put(m, Location, p.location);
    var m := Put(m, Sector, p.sector);
    var m := m[Description := JoinDescription(p.descriptionParts)];
    var m := Put(m, Salary, p.salary);
    var m := Put(m, ContractType, p.contractType);
    var m := Put(m, PostedDate, Or(p.metaDate, p.date));
    var m := m[SourceWebsite := "tanitjobs.com"];
    m[JobUrl := p.url]
  }

  // ---------------------------------------------------------------------
  // clean_item
  // ---------------------------------------------------------------------

  /** ' '.join(value.strip().split()) */
  function Squeeze(s: string): (r: string)
    ensures Normalised(r)
    ensures r == "" <==> AllSpace(s)
  {
    CollapseStrip(s);
    Collapse(Strip(s))
  }

  /** A value with no whitespace at all comes through the cleanup as it is. */
  lemma SqueezeNoSpace(s: string)
    requires forall i :: 0 <= i < |s| ==> !IsSpace(s[i])
    ensures Squeeze(s) == s
  {
    StripTrimmed(s);
    assert Normalised(s);
    CollapseFixesNormalised(s);
  }

  /** re.search(r'\d{1,2}/\d{1,2}/\d{4}', t).group() when there is a
      match, t itself otherwise. */
  function DateOf(t: string): (r: string)
    ensures r == t || IsDate(r)
  {
    SearchDateSpec(t);
    match SearchDate(t)
    case Some((i, j)) => t[i..j]
    case None => t
  }

  /** The posting date step: applied only to a non-empty date. */
  function WithDate(c: Values): Values {
    if Truthy(c, PostedDate) then c[PostedDate := DateOf(c[PostedDate])] else c
  }

  /** The five defaults, in clean_item's order. */
  function WithDefaults(d: Values, today: Date): Values {
    Default(TextDefaults(d), PostedDate, Strftime(today))
  }

  /** The first four defaults, which do not depend on the date. */
  function TextDefaults(d: Values): Values {
    var d := Default(d, Title, NotAvailable);
    var d := Default(d, Company, NotAvailable);
    var d := Default(d, Location, DefaultLocation);
    Default(d, Description, NoDescription)
  }

  /** The item after clean_item; nothing is ever dropped. */
  function CleanSpec(m: Values, today: Date): Values {
    WithDefaults(WithDate(Rewrite(m, AllFields, Squeeze)), today)
  }

  /** The cleanup loop squeezes every set, non-empty field. */
  lemma SqueezedSpec(m: Values)
    ensures Rewrite(m, AllFields, Squeeze).Keys == m.Keys
    ensures forall f :: f in m ==>
              Rewrite(m, AllFields, Squeeze)[f] == if m[f] != "" then Squeeze(m[f]) else m[f]
  {
    AllFieldsDistinct();
    RewriteSpec(m, AllFields, Squeeze);
    forall f | f in m ensures f in AllFields { AllFieldsComplete(f); }
  }

  /** The placeholder of each defaulted field; None for the others. */
  function DefaultOf(g: Field, today: Date): Option<string> {
    match g
    case Title => Some(NotAvailable)
    case Company => Some(NotAvailable)
    case Location => Some(DefaultLocation)
    case Description => Some(NoDescription)
    case PostedDate => Some(Strftime(today))
    case _ => None
  }

  /** The placeholder of each of the first four defaulted fields. */
  function TextDefaultOf(g: Field): Option<string> {
    match g
    case Title => Some(NotAvailable)
    case Company => Some(NotAvailable)
    case Location => Some(DefaultLocation)
    case Description => Some(NoDescription)
    case _ => None
  }

  lemma TextDefaultsKeys(d: Values)
    ensures TextDefaults(d).Keys == d.Keys + {Title, Company, Location, Description}
  {
    var d1 := Default(d, Title, NotAvailable);
    var d2 := Default(d1, Company, NotAvailable);
    var d3 := Default(d2, Location, DefaultLocation);
    DefaultKeys(d, Title, NotAvailable);
    DefaultKeys(d1, Company, NotAvailable);
    DefaultKeys(d2, Location, DefaultLocation);
    DefaultKeys(d3, Description, NoDescription);
  }

  lemma TextDefaultsSpec(d: Values, g: Field)
    ensures Get(TextDefaults(d), g) ==
              if TextDefaultOf(g).Some? && !IsTruthy(Get(d, g)) then TextDefaultOf(g) else Get(d, g)
  {
    var d1 := Default(d, Title, NotAvailable);
    var d2 := Default(d1, Company, NotAvailable);
    var d3 := Default(d2, Location, DefaultLocation);
    DefaultGet(d, Title, NotAvailable, g);
    DefaultGet(d1, Company, NotAvailable, g);
    DefaultGet(d2, Location, DefaultLocation, g);
    DefaultGet(d3, Description, NoDescription, g);
  }

  /** The defaults add the five defaulted fields and no other. */
  lemma WithDefaultsKeys(d: Values, today: Date)
    ensures WithDefaults(d, today).Keys == d.Keys + {Title, Company, Location, Description, PostedDate}
  {
    TextDefaultsKeys(d);
    DefaultKeys(TextDefaults(d), PostedDate, Strftime(today));
  }

  /** The five defaulted fields are filled when empty or absent and kept
      otherwise; every other field is left alone. */
  lemma WithDefaultsSpec(d: Values, today: Date, g: Field)
    ensures Get(WithDefaults(d, today), g) ==
              if DefaultOf(g, today).Some? && !IsTruthy(Get(d, g)) then DefaultOf(g, today) else Get(d, g)
  {
    TextDefaultsSpec(d, g);
    DefaultGet(TextDefaults(d), PostedDate, Strftime(today), g);
  }

  /** A field after the cleanup loop: squeezed when set and non-empty. */
  function Squeezed(m: Values, g: Field): Option<string> {
    if g in m && m[g] != "" then Some(Squeeze(m[g])) else Get(m, g)
  }

  lemma SqueezedGet(m: Values, g: Field)
    ensures Get(Rewrite(m, AllFields, Squeeze), g) == Squeezed(m, g)
    ensures IsTruthy(Squeezed(m, g)) <==> g in m && !AllSpace(m[g])
  {
    SqueezedSpec(m);
  }

  /** The date step changes only a non-empty posting date. */
  lemma WithDateGet(c: Values, g: Field)
    ensures Get(WithDate(c), g) ==
              if g == PostedDate && IsTruthy(Get(c, g)) then Some(DateOf(c[g])) else Get(c, g)
  {
  }

  /** Each field after clean_item, step by step: squeezed, the date
      extracted, the default filled in. */
  lemma CleanGet(m: Values, today: Date, g: Field)
    ensures var s := Squeezed(m, g);
            var s' := if g == PostedDate && IsTruthy(s) then Some(DateOf(s.value)) else s;
            Get(CleanSpec(m, today), g) == if DefaultOf(g, today).Some? && !IsTruthy(s') then DefaultOf(g, today) else s'
  {
    var c := Rewrite(m, AllFields, Squeeze);
    SqueezedGet(m, g);
    WithDateGet(c, g);
    WithDefaultsSpec(WithDate(c), today, g);
  }

  /** The squeezed value of a field that is set and not only whitespace. */
  function Cleaned(m: Values, f: Field): Option<string> {
    if f in m && !AllSpace(m[f]) then Some(Squeeze(m[f])) else None
  }

  /** Title, company, location and description keep their cleaned value
      and get their default when it is empty. */
  lemma CleanDefaults(m: Values, today: Date, f: Field, d: string)
    requires (f, d) in {(Title, NotAvailable), (Company, NotAvailable), (Location, DefaultLocation), (Description, NoDescription)}
    ensures Get(CleanSpec(m, today), f) == Some(if Cleaned(m, f).Some? then Cleaned(m, f).value else d)
  {
    CleanGet(m, today, f);
    SqueezedGet(m, f);
  }

  /** The posting date: the leftmost date of the cleaned text if it has
      one, the cleaned text if not, and today's date when it is empty. */
  lemma CleanPostedDate(m: Values, today: Date)
    ensures Get(CleanSpec(m, today), PostedDate) ==
              Some(if Cleaned(m, PostedDate).Some? then DateOf(Cleaned(m, PostedDate).value) else Strftime(today))
  {
    CleanGet(m, today, PostedDate);
    SqueezedGet(m, PostedDate);
    if Cleaned(m, PostedDate).Some? {
      var t := Cleaned(m, PostedDate).value;
      assert DateOf(t) != "" by {
        if DateOf(t) != t { DateIsNormalised(DateOf(t)); }
      }
    }
  }

  /** What DateOf extracts: the leftmost substring of the date form, or
      the whole text when no substring has that form. */
  lemma DateOfSpec(t: string)
    ensures SearchDate(t).Some? ==>
              var (i, j) := SearchDate(t).value;
              i <= j <= |t| && DateOf(t) == t[i..j] && IsDate(t[i..j])
              && forall k, l :: 0 <= k < i && k <= l <= |t| ==> !IsDate(t[k..l])
    ensures SearchDate(t).None? ==>
              DateOf(t) == t && forall k, l :: 0 <= k <= l <= |t| ==> !IsDate(t[k..l])
  {
    SearchDateSpec(t);
  }

  /** When the cleaned posting date holds a date, the field becomes the
      leftmost one, which is also a substring of the value as scraped. */
  lemma CleanDateFromRaw(m: Values, today: Date)
    requires PostedDate in m && !AllSpace(m[PostedDate])
    requires SearchDate(Squeeze(m[PostedDate])).Some?
    ensures var r := Get(CleanSpec(m, today), PostedDate);
            r.Some? && IsDate(r.value) && Contains(m[PostedDate], r.value)
  {
    var raw := m[PostedDate];
    var t := Squeeze(raw);
    CleanPostedDate(m, today);
    DateOfSpec(t);
    var (i, j) := SearchDate(t).value;
    var d := t[i..j];
    DateIsNormalised(d);
    forall k | 0 <= k < |d| ensures !IsSpace(d[k]) {
      if IsDigit(d[k]) { DigitIsNotSpace(d[k]); }
    }
    assert OccursAt(t, d, i);
    SpaceFreeInCollapse(raw, d);
  }

  /** Sector, salary, contract type and the remaining fields are never
      defaulted: they are squeezed when set and non-empty, and an empty or
      whitespace value stays empty. */
  lemma CleanNoDefault(m: Values, today: Date, g: Field)
    requires g !in {Title, Company, Location, Description, PostedDate}
    ensures Get(CleanSpec(m, today), g) == if g in m && m[g] != "" then Some(Squeeze(m[g])) else Get(m, g)
    ensures IsTruthy(Get(CleanSpec(m, today), g)) <==> g in m && !AllSpace(m[g])
  {
    CleanGet(m, today, g);
    SqueezedGet(m, g);
  }

  /** clean_item keeps every field and adds the five defaulted ones. */
  lemma CleanKeys(m: Values, today: Date)
    ensures CleanSpec(m, today).Keys == m.Keys + {Title, Company, Location, Description, PostedDate}
  {
    SqueezedSpec(m);
    WithDefaultsKeys(WithDate(Rewrite(m, AllFields, Squeeze)), today);
  }

  /** After clean_item the five defaulted fields are non-empty and every
      field is collapsed and stripped. */
  lemma CleanNormalised(m: Values, today: Date)
    ensures var r := CleanSpec(m, today);
            Truthy(r, Title) && Truthy(r, Company) && Truthy(r, Location)
            && Truthy(r, Description) && Truthy(r, PostedDate)
            && forall f :: f in r ==> Normalised(r[f])
  {
    var r := CleanSpec(m, today);
    PlaceholdersNormalised();
    CleanKeys(m, today);
    CleanDefaults(m, today, Title, NotAvailable);
    CleanDefaults(m, today, Company, NotAvailable);
    CleanDefaults(m, today, Location, DefaultLocation);
    CleanDefaults(m, today, Description, NoDescription);
    CleanPostedDate(m, today);
    StrftimeIsDate(today);
    DateIsNormalised(Strftime(today));
    forall f | f in r ensures Normalised(r[f]) {
      if f == Title { CleanDefaults(m, today, f, NotAvailable); }
      else if f == Company { CleanDefaults(m, today, f, NotAvailable); }
      else if f == Location { CleanDefaults(m, today, f, DefaultLocation); }
      else if f == Description { CleanDefaults(m, today, f, NoDescription); }
      else if f == PostedDate {
        if Cleaned(m, PostedDate).Some? {
          var t := Cleaned(m, PostedDate).value;
          if DateOf(t) != t { DateIsNormalised(DateOf(t)); }
        }
      } else {
        CleanNoDefault(m, today, f);
        if m[f] == "" { assert Normalised(m[f]); }
      }
    }
  }

  // ---------------------------------------------------------------------
  // A detail page's item
  // ---------------------------------------------------------------------

  /** The item parse_job_details yields for a detail page. */
  function DetailItem(p: DetailPage, today: Date): Values {
    CleanSpec(DetailFields(p), today)
  }

  lemma SourceWebsiteIsWord()
    ensures GoodWord("tanitjobs.com")
  {
  }

  /** source_website is "tanitjobs.com", and job_url is the response URL
      (cleaned, which leaves a URL without whitespace as it is). */
  lemma DetailConstants(p: DetailPage, today: Date)
    ensures Get(DetailItem(p, today), SourceWebsite) == Some("tanitjobs.com")
    ensures Get(DetailItem(p, today), JobUrl) == Some(if p.url != "" then Squeeze(p.url) else p.url)
    ensures (forall i :: 0 <= i < |p.url| ==> !IsSpace(p.url[i])) ==> Get(DetailItem(p, today), JobUrl) == Some(p.url)
  {
    var m := DetailFields(p);
    CleanNoDefault(m, today, SourceWebsite);
    CleanNoDefault(m, today, JobUrl);
    SourceWebsiteIsWord();
    SqueezeNoSpace("tanitjobs.com");
    if forall i :: 0 <= i < |p.url| ==> !IsSpace(p.url[i]) {
      SqueezeNoSpace(p.url);
    }
  }

  /** The title: the meta title when it is non-empty, else the page's;
      cleaned, and "N/A" when what was chosen is empty or whitespace. A
      whitespace-only meta title therefore hides the page's title. */
  lemma DetailTitle(p: DetailPage, today: Date)
    ensures var chosen := Or(p.metaTitle, p.title);
            Get(DetailItem(p, today), Title) ==
              Some(if chosen.Some? && !AllSpace(chosen.value) then Squeeze(chosen.value) else NotAvailable)
    ensures IsTruthy(p.metaTitle) && AllSpace(p.metaTitle.value) ==>
              Get(DetailItem(p, today), Title) == Some(NotAvailable)
  {
    var m := DetailFields(p);
    PutOthers(Put(map[], Title, Or(p.metaTitle, p.title)), Company, p.company, Title);
    assert Get(m, Title) == Or(p.metaTitle, p.title);
    CleanDefaults(m, today, Title, NotAvailable);
  }

  /** The posting date: the meta date when it is non-empty, else the
      page's; then the leftmost date in it, or today's date when empty. */
  lemma DetailPostedDate(p: DetailPage, today: Date)
    ensures var chosen := Or(p.metaDate, p.date);
            Get(DetailItem(p, today), PostedDate) ==
              Some(if chosen.Some? && !AllSpace(chosen.value) then DateOf(Squeeze(chosen.value)) else Strftime(today))
  {
    var m := DetailFields(p);
    assert Get(m, PostedDate) == Or(p.metaDate, p.date);
    CleanPostedDate(m, today);
  }

  /** The description: the non-blank parts joined by spaces and then
      collapsed by the cleanup, or the placeholder when every part is
      whitespace. */
  lemma DetailDescription(p: DetailPage, today: Date)
    ensures Get(DetailItem(p, today), Description) ==
              Some(if Pieces(p.descriptionParts) != [] then Collapse(Join(" ", Pieces(p.descriptionParts))) else NoDescription)
  {
    var m := DetailFields(p);
    var t := JoinDescription(p.descriptionParts);
    assert m[Description] == t;
    DescriptionSpec(p.descriptionParts);
    PiecesSpec(p.descriptionParts);
    JoinTrimmed(Pieces(p.descriptionParts));
    CleanDefaults(m, today, Description, NoDescription);
    if t != "" {
      assert !AllSpace(t) by { assert !IsSpace(t[0]); }
      StripTrimmed(t);
    }
  }

  // ---------------------------------------------------------------------
  // The spider's methods
  // ---------------------------------------------------------------------

  /** parse on a listing page: a detail request for each listing with a
      non-empty link, then the next listing page if there is one. */
  method Parse(page: ListingPage, urljoin: string -> string) returns (requests: seq<Request>)
    ensures requests == Requests(page, urljoin)
  {
    requests := [];
    var n := 0;
    while n < |page.listings|
      invariant 0 <= n <= |page.listings|
      invariant requests == DetailRequests(page.listings[..n], urljoin)
    {
      var job := page.listings[n];
      if job.link.Some? && job.link.value != "" {
        requests := requests + [Detail(urljoin(job.link.value), job.title, job.date)];
      }
      assert page.listings[..n + 1][..n] == page.listings[..n];
      n := n + 1;
    }
    assert page.listings[..n] == page.listings;
    if page.nextPage.Some? && page.nextPage.value != "" {
      requests := requests + [NextListing(urljoin(page.nextPage.value))];
    }
  }

  /** clean_item on the item in place. */
  method CleanItem(item: JobItem, today: Date)
    modifies item
    ensures item.fields == CleanSpec(old(item.fields), today)
  {
    SqueezeFields(item);
    ExtractDate(item);
    FillDefaults(item, today);
  }

  /** clean_item's loop: every set, non-empty field is stripped and its
      whitespace runs collapsed. */
  method SqueezeFields(item: JobItem)
    modifies item
    ensures item.fields == Rewrite(old(item.fields), AllFields, Squeeze)
  {
    var n := 0;
    while n < |AllFields|
      invariant 0 <= n <= |AllFields|
      invariant item.fields == Rewrite(old(item.fields), AllFields[..n], Squeeze)
    {
      RewriteStep(old(item.fields), AllFields, Squeeze, n);
      var f := AllFields[n];
      if f in item.fields && item.fields[f] != "" {
        var text := Strip(item.fields[f]);
        item.fields := item.fields[f := Collapse(text)];
      }
      n := n + 1;
    }
    assert AllFields[..n] == AllFields;
  }

  /** clean_item's posting-date step: a non-empty date is replaced by the
      first match of the date pattern in it, if there is one. */
  method ExtractDate(item: JobItem)
    modifies item
    ensures item.fields == WithDate(old(item.fields))
  {
    if Truthy(item.fields, PostedDate) {
      var dateStr := item.fields[PostedDate];
      var found := SearchDate(dateStr);
      if found.Some? {
        var (i, j) := found.value;
        SearchDateSpec(dateStr);
        item.fields := item.fields[PostedDate := dateStr[i..j]];
      }
    }
  }

  /** clean_item's five `if not item.get(field)` assignments. */
  method FillDefaults(item: JobItem, today: Date)
    modifies item
    ensures item.fields == WithDefaults(old(item.fields), today)
  {
    var m := item.fields;
    if !Truthy(m, Title) { m := m[Title := NotAvailable]; }
    if !Truthy(m, Company) { m := m[Company := NotAvailable]; }
    if !Truthy(m, Location) { m := m[Location := DefaultLocation]; }
    if !Truthy(m, Description) { m := m[Description := NoDescription]; }
    assert m == TextDefaults(item.fields);
    if !Truthy(m, PostedDate) { m := m[PostedDate := Strftime(today)]; }
    item.fields := m;
  }

  /** parse_job_details: the fields assigned one by one, then clean_item. */
  method ParseJobDetails(p: DetailPage, today: Date) returns (item: JobItem)
    ensures fresh(item) && item.fields == DetailItem(p, today)
  {
    var m: Values := Put(map[], Title, Or(p.metaTitle, p.title));
    m := Put(m, Company, p.company);
    m := Put(m, Location, p.location);
    m := Put(m, Sector, p.sector);
    m := m[Description := JoinDescription(p.descriptionParts)];
    m := Put(m, Salary, p.salary);
    m := Put(m, ContractType, p.contractType);
    m := Put(m, PostedDate, Or(p.metaDate, p.date));
    m := m[SourceWebsite := "tanitjobs.com"];
    item := new JobItem();
    item.fields := m[JobUrl := p.url];
    CleanItem(item, today);
  }
}
