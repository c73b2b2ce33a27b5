/**
 * KeejobSpider: how one job card of a listing page becomes an item (the
 * title, company line, tags, description, bottom line and link read from
 * it), clean_item's whitespace collapsing, title check and defaults, and
 * the page counter that drives pagination. The browser is not modelled:
 * each card arrives as the texts its elements hold.
 */
module Keejob {
  import opened Text
  import opened Items
  import opened Dates

  // ---------------------------------------------------------------------
  // str.split(sep) with a one-character separator
  // ---------------------------------------------------------------------

  function SplitOn(s: string, c: char): (r: seq<string>)
    ensures |r| >= 1 && (c in s <==> |r| >= 2)
    decreases |s|
  {
    if s == [] then [""]
    else
      var rest := SplitOn(s[1..], c);
      assert c in s <==> s[0] == c || c in s[1..] by { assert s == [s[0]] + s[1..]; }
      if s[0] == c then [""] + rest else [[s[0]] + rest[0]] + rest[1..]
  }

  /** Joining the pieces with the separator gives back the string. */
  lemma {:induction false} SplitOnRejoin(s: string, c: char)
    ensures Join([c], SplitOn(s, c)) == s
    decreases |s|
  {
    if s != [] {
      var rest := SplitOn(s[1..], c);
      SplitOnRejoin(s[1..], c);
      if s[0] == c {
        JoinCons([c], "", rest);
      } else if |rest| == 1 {
        assert SplitOn(s, c) == [[s[0]] + rest[0]];
      } else {
        assert rest == [rest[0]] + rest[1..];
        JoinCons([c], rest[0], rest[1..]);
        JoinCons([c], [s[0]] + rest[0], rest[1..]);
      }
    }
  }

  /** No piece contains the separator. */
  lemma {:induction false} SplitOnPieces(s: string, c: char)
    ensures forall k :: 0 <= k < |SplitOn(s, c)| ==> c !in SplitOn(s, c)[k]
    decreases |s|
  {
    if s != [] {
      var rest := SplitOn(s[1..], c);
      SplitOnPieces(s[1..], c);
      if s[0] != c {
        var r := SplitOn(s, c);
        assert r == [[s[0]] + rest[0]] + rest[1..];
        assert c !in r[0] by { assert c !in rest[0]; }
        forall k | 1 <= k < |r| ensures c !in r[k] { assert r[k] == rest[k]; }
      } else {
        var r := SplitOn(s, c);
        assert r == [""] + rest;
        forall k | 1 <= k < |r| ensures c !in r[k] { assert r[k] == rest[k - 1]; }
      }
    }
  }

  /** Without the separator there is one piece, the whole string. */
  lemma {:induction false} SplitOnAbsent(s: string, c: char)
    requires c !in s
    ensures SplitOn(s, c) == [s]
    decreases |s|
  {
    if s != [] {
      assert c !in s[1..] by { assert forall k :: 0 <= k < |s| - 1 ==> s[1..][k] == s[k + 1]; }
      SplitOnAbsent(s[1..], c);
      assert [s[0]] + s[1..] == s;
    }
  }

  /** The first piece is the text before the first separator; the rest is
      the split of what follows it. */
  lemma {:induction false} SplitOnFirst(s: string, c: char, i: nat)
    requires i < |s| && s[i] == c && c !in s[..i]
    ensures SplitOn(s, c) == [s[..i]] + SplitOn(s[i + 1..], c)
    decreases i
  {
    if i > 0 {
      assert s[0] == s[..i][0];
      assert s[1..][..i - 1] == s[1..i];
      SplitOnFirst(s[1..], c, i - 1);
      assert s[1..][i..] == s[i + 1..];
      assert [s[0]] + s[1..i] == s[..i];
    }
  }

  // ---------------------------------------------------------------------
  // The job card
  // ---------------------------------------------------------------------

  const Bullet: char := '•'

  /** An <a> element, with its href attribute if it has one. */
  datatype Link = Link(href: Option<string>)

  /** The text of each element the spider looks up in a card; None where
      the card has no such element. */
  datatype Article = Article(
    title: Option<string>,        // h2
    company: Option<string>,      // p.text-sm
    tags: seq<string>,            // span.inline-flex.items-center
    description: Option<string>,  // div.mb-3
    bottomInfo: Option<string>,   // div.flex.flex-wrap.items-center.text-sm
    link: Option<Link>)           // a

  /** Location and posting date from the card's bottom line: the stripped
      text before the first bullet and between the first two bullets, or
      "Tunisia" and today's date when there is no bullet or no line. */
  function BottomLine(info: Option<string>, today: Date): (string, string) {
    match info
    case Some(t) =>
      if Bullet in t then (Strip(SplitOn(t, Bullet)[0]), Strip(SplitOn(t, Bullet)[1]))
      else (DefaultLocation, Strftime(today))
    case None => (DefaultLocation, Strftime(today))
  }

  lemma BottomLineLocation(t: string, today: Date, i: nat)
    requires i < |t| && t[i] == Bullet && Bullet !in t[..i]
    ensures BottomLine(Some(t), today).0 == Strip(t[..i])
  {
    SplitOnFirst(t, Bullet, i);
  }

  lemma BottomLineDate(t: string, today: Date, i: nat, j: nat)
    requires i < j <= |t| && t[i] == Bullet && Bullet !in t[..i]
    requires Bullet !in t[i + 1..j] && (j == |t| || t[j] == Bullet)
    ensures BottomLine(Some(t), today).1 == Strip(t[i + 1..j])
  {
    SplitOnFirst(t, Bullet, i);
    var u := t[i + 1..];
    if j == |t| {
      assert u == t[i + 1..j];
      SplitOnAbsent(u, Bullet);
    } else {
      assert u[..j - i - 1] == t[i + 1..j];
      SplitOnFirst(u, Bullet, j - i - 1);
    }
  }

  lemma BottomLineWithoutBullet(info: Option<string>, today: Date)
    requires info.None? || Bullet !in info.value
    ensures BottomLine(info, today) == (DefaultLocation, Strftime(today))
  {
  }

  /** `if tags:` the first tag's text is the sector and the second's, if
      any, the contract type. */
  function WithTags(m: Values, tags: seq<string>): Values {
    if |tags| > 0 then
      Put(m[Sector := Strip(tags[0])], ContractType, if |tags| > 1 then Some(Strip(tags[1])) else None)
    else m
  }

  /** The job URL: the link's href, or the page's URL when the card has no
      link. */
  function CardUrl(link: Option<Link>, pageUrl: string): Option<string> {
    match link
    case Some(l) => l.href
    case None => Some(pageUrl)
  }

  /** parse's first assignments for a card with a title: title, company
      and tags. */
  function CardHead(a: Article): Values
    requires a.title.Some?
  {
    var m := map[Title := Strip(a.title.value)];
    var m := m[Company := if a.company.Some? then Strip(a.company.value) else NotAvailable];
    WithTags(m, a.tags)
  }

  /** parse's remaining assignments: description, the bottom line, the
      link, salary and source. */
  function CardTail(m: Values, a: Article, pageUrl: string, today: Date): Values {
    var m := m[Description := if a.description.Some? then Strip(a.description.value) else NoDescription];
    var (location, date) := BottomLine(a.bottomInfo, today);
    var m := m[Location := location][PostedDate := date];
    var m := Put(m, JobUrl, CardUrl(a.link, pageUrl));
    var m := Put(m, Salary, None);
    m[SourceWebsite := "keejob.com"]
  }

  /** The fields parse assigns for one card, in the order it assigns them,
      before clean_item; None when the card has no title element and is
      skipped. */
  function Extract(a: Article, pageUrl: string, today: Date): Option<Values> {
    if a.title.None? then None else Some(CardTail(CardHead(a), a, pageUrl, today))
  }

  /** A card is skipped exactly when it has no title element. */
  lemma ExtractSkips(a: Article, pageUrl: string, today: Date)
    ensures Extract(a, pageUrl, today).None? <==> a.title.None?
  {
  }

  /** The later assignments leave title, company, sector and contract type
      as the first ones set them. */
  lemma CardTailKeeps(m: Values, a: Article, pageUrl: string, today: Date, g: Field)
    requires g in {Title, Company, Sector, ContractType}
    ensures Get(CardTail(m, a, pageUrl, today), g) == Get(m, g)
  {
    var (location, date) := BottomLine(a.bottomInfo, today);
    var m2 := m[Description := if a.description.Some? then Strip(a.description.value) else NoDescription]
                [Location := location][PostedDate := date];
    var m3 := Put(m2, JobUrl, CardUrl(a.link, pageUrl));
    assert Get(m2, g) == Get(m, g);
    PutOthers(m2, JobUrl, CardUrl(a.link, pageUrl), g);
    PutOthers(m3, Salary, None, g);
  }

  /** The first tag gives the sector and the second the contract type;
      with no tags neither is set. */
  lemma ExtractTags(a: Article, pageUrl: string, today: Date)
    requires a.title.Some?
    ensures var m := Extract(a, pageUrl, today).value;
            Get(m, Sector) == (if |a.tags| > 0 then Some(Strip(a.tags[0])) else None)
            && Get(m, ContractType) == (if |a.tags| > 1 then Some(Strip(a.tags[1])) else None)
  {
    CardTailKeeps(CardHead(a), a, pageUrl, today, Sector);
    CardTailKeeps(CardHead(a), a, pageUrl, today, ContractType);
  }

  /** salary is None, source_website is "keejob.com", and job_url is the
      link's href or, without a link, the page's URL. */
  lemma ExtractConstants(a: Article, pageUrl: string, today: Date)
    requires a.title.Some?
    ensures var m := Extract(a, pageUrl, today).value;
            Salary !in m && Get(m, SourceWebsite) == Some("keejob.com")
            && Get(m, JobUrl) == match a.link case Some(l) => l.href case None => Some(pageUrl)
  {
  }

  // ---------------------------------------------------------------------
  // clean_item
  // ---------------------------------------------------------------------

  /** ' '.join(value.split()).strip() */
  function Tidy(s: string): (r: string)
    ensures r == Collapse(s)
  {
    StripCollapse(s);
    Strip(Collapse(s))
  }

  /** The three defaults clean_item applies to a kept item. */
  function WithDefaults(c: Values): Values {
    Default(Default(Default(c, Company, NotAvailable), Location, DefaultLocation), Description, NoDescription)
  }

  /** The item after clean_item, or None when it is dropped for lacking a
      title. */
  function CleanSpec(m: Values): Option<Values> {
    var c := Rewrite(m, AllFields, Tidy);
    if !Truthy(c, Title) then None else Some(WithDefaults(c))
  }

  /** Company, location and description are filled when empty or absent
      and kept otherwise; every other field is left alone. */
  lemma WithDefaultsSpec(c: Values, g: Field)
    ensures WithDefaults(c).Keys == c.Keys + {Company, Location, Description}
    ensures Get(WithDefaults(c), g) ==
              if g == Company then Some(if Truthy(c, g) then c[g] else NotAvailable)
              else if g == Location then Some(if Truthy(c, g) then c[g] else DefaultLocation)
              else if g == Description then Some(if Truthy(c, g) then c[g] else NoDescription)
              else Get(c, g)
  {
  }

  /** The collapsing loop visits every field: each value is collapsed. */
  lemma CollapsedSpec(m: Values)
    ensures Rewrite(m, AllFields, Tidy).Keys == m.Keys
    ensures forall f :: f in m ==> Rewrite(m, AllFields, Tidy)[f] == Collapse(m[f])
  {
    AllFieldsDistinct();
    RewriteSpec(m, AllFields, Tidy);
    forall f | f in m ensures Rewrite(m, AllFields, Tidy)[f] == Collapse(m[f]) {
      AllFieldsComplete(f);
      if m[f] == "" { CollapseNormalised(m[f]); }
    }
  }

  /** An item is dropped exactly when its title is absent or only
      whitespace. */
  lemma CleanDropsIff(m: Values)
    ensures CleanSpec(m).None? <==> Title !in m || AllSpace(m[Title])
  {
    CollapsedSpec(m);
    if Title in m { CollapseNormalised(m[Title]); }
  }

  /** The value a default-carrying field ends with. */
  function Defaulted(m: Values, f: Field, d: string): string {
    if f in m && !AllSpace(m[f]) then Collapse(m[f]) else d
  }

  /** On a kept item the title is collapsed and non-empty. */
  lemma CleanTitle(m: Values)
    requires CleanSpec(m).Some?
    ensures Title in m && Get(CleanSpec(m).value, Title) == Some(Collapse(m[Title])) && Collapse(m[Title]) != ""
  {
    var c := Rewrite(m, AllFields, Tidy);
    CollapsedSpec(m);
    CleanDropsIff(m);
    WithDefaultsSpec(c, Title);
    CollapseNormalised(m[Title]);
  }

  /** On a kept item, company, location and description keep their
      collapsed value when it is non-empty and get their default
      otherwise. */
  lemma CleanDefaults(m: Values, f: Field, d: string)
    requires CleanSpec(m).Some?
    requires (f, d) in {(Company, NotAvailable), (Location, DefaultLocation), (Description, NoDescription)}
    ensures Get(CleanSpec(m).value, f) == Some(Defaulted(m, f, d))
  {
    var c := Rewrite(m, AllFields, Tidy);
    CollapsedSpec(m);
    WithDefaultsSpec(c, f);
    if f in m { CollapseNormalised(m[f]); }
  }

  /** Every other field of a kept item is only collapsed. */
  lemma CleanOthers(m: Values, g: Field)
    requires CleanSpec(m).Some? && g !in {Company, Location, Description}
    ensures Get(CleanSpec(m).value, g) == if g in m then Some(Collapse(m[g])) else None
  {
    var c := Rewrite(m, AllFields, Tidy);
    CollapsedSpec(m);
    WithDefaultsSpec(c, g);
  }

  /** A kept item has the input's fields and the three defaulted ones. */
  lemma CleanKeys(m: Values)
    requires CleanSpec(m).Some?
    ensures CleanSpec(m).value.Keys == m.Keys + {Company, Location, Description}
  {
    CollapsedSpec(m);
    WithDefaultsSpec(Rewrite(m, AllFields, Tidy), Title);
  }

  /** Every field of a kept item is non-empty where required and has
      whitespace runs collapsed, no leading or trailing whitespace. */
  lemma CleanNormalised(m: Values)
    requires CleanSpec(m).Some?
    ensures var r := CleanSpec(m).value;
            Truthy(r, Title) && Truthy(r, Company) && Truthy(r, Location) && Truthy(r, Description)
            && forall f :: f in r ==> Normalised(r[f])
  {
    var r := CleanSpec(m).value;
    PlaceholdersNormalised();
    CleanKeys(m);
    forall f | f in r ensures Normalised(r[f]) {
      if f in m { CollapseNormalised(m[f]); }
      if f == Company { CleanDefaults(m, f, NotAvailable); }
      else if f == Location { CleanDefaults(m, f, DefaultLocation); }
      else if f == Description { CleanDefaults(m, f, NoDescription); }
      else { CleanOthers(m, f); }
    }
    CleanTitle(m);
    CleanDefaults(m, Company, NotAvailable);
    CleanDefaults(m, Location, DefaultLocation);
    CleanDefaults(m, Description, NoDescription);
  }

  /** clean_item changes nothing on an item it has already cleaned. */
  lemma CleanIdempotent(m: Values)
    requires CleanSpec(m).Some?
    ensures CleanSpec(CleanSpec(m).value) == CleanSpec(m)
  {
    var r := CleanSpec(m).value;
    CleanNormalised(m);
    assert Rewrite(r, AllFields, Tidy) == r by {
      CollapsedSpec(r);
      forall f | f in r ensures Collapse(r[f]) == r[f] { CollapseFixesNormalised(r[f]); }
    }
    assert WithDefaults(r) == r;
  }

  /** One card as parse turns it into an item: extraction, then clean_item. */
  function ArticleItem(a: Article, pageUrl: string, today: Date): Option<Values> {
    match Extract(a, pageUrl, today)
    case None => None
    case Some(m) => CleanSpec(m)
  }

  /** A card becomes an item exactly when it has a title of some
      non-whitespace text. */
  lemma ArticleItemKept(a: Article, pageUrl: string, today: Date)
    ensures ArticleItem(a, pageUrl, today).Some? <==> a.title.Some? && !AllSpace(Strip(a.title.value))
  {
    if a.title.Some? {
      var m := Extract(a, pageUrl, today).value;
      CardTailKeeps(CardHead(a), a, pageUrl, today, Title);
      assert m[Title] == Strip(a.title.value);
      CleanDropsIff(m);
    }
  }

  lemma SourceWebsiteIsWord()
    ensures GoodWord("keejob.com")
  {
  }

  /** Every item of a card has salary None, source_website "keejob.com" and
      job_url the link's href or, without a link, the page's URL. */
  lemma ArticleItemConstants(a: Article, pageUrl: string, today: Date)
    requires ArticleItem(a, pageUrl, today).Some?
    ensures var r := ArticleItem(a, pageUrl, today).value;
            Salary !in r && Get(r, SourceWebsite) == Some("keejob.com")
            && Get(r, JobUrl) == match a.link
                                case Some(l) => (if l.href.Some? then Some(Collapse(l.href.value)) else None)
                                case None => Some(Collapse(pageUrl))
  {
    var m := Extract(a, pageUrl, today).value;
    ExtractConstants(a, pageUrl, today);
    CleanOthers(m, Salary);
    CleanOthers(m, SourceWebsite);
    CleanOthers(m, JobUrl);
    SourceWebsiteIsWord();
    WordNormalised("keejob.com");
    CollapseFixesNormalised("keejob.com");
  }

  /** The items parse yields for a page of cards, in card order. */
  function PageItems(articles: seq<Article>, pageUrl: string, today: Date): seq<Values>
    decreases |articles|
  {
    if articles == [] then []
    else
      var last := articles[|articles| - 1];
      PageItems(articles[..|articles| - 1], pageUrl, today)
        + match ArticleItem(last, pageUrl, today) case Some(r) => [r] case None => []
  }

  /** One more card of the page. */
  lemma PageItemsStep(articles: seq<Article>, pageUrl: string, today: Date, n: nat)
    requires n < |articles|
    ensures PageItems(articles[..n + 1], pageUrl, today) ==
              PageItems(articles[..n], pageUrl, today)
                + match ArticleItem(articles[n], pageUrl, today) case Some(r) => [r] case None => []
  {
    assert articles[..n + 1][..n] == articles[..n];
  }

  /** A page never yields more items than it has cards, and every item it
      yields has a non-empty title and the keejob constants. */
  lemma {:induction false} PageItemsSpec(articles: seq<Article>, pageUrl: string, today: Date)
    ensures var items := PageItems(articles, pageUrl, today);
            |items| <= |articles|
            && forall k :: 0 <= k < |items| ==>
                 Truthy(items[k], Title) && Salary !in items[k] && Get(items[k], SourceWebsite) == Some("keejob.com")
    decreases |articles|
  {
    if articles != [] {
      var last := articles[|articles| - 1];
      PageItemsSpec(articles[..|articles| - 1], pageUrl, today);
      if ArticleItem(last, pageUrl, today).Some? {
        ArticleItemConstants(last, pageUrl, today);
        CleanNormalised(Extract(last, pageUrl, today).value);
      }
    }
  }

  /** clean_item on the item in place: the collapsing loop over every
      field, the title check and the three defaults. */
  method CleanItem(item: JobItem) returns (kept: bool)
    modifies item
    ensures kept == CleanSpec(old(item.fields)).Some?
    ensures kept ==> item.fields == CleanSpec(old(item.fields)).value
  {
    var n := 0;
    while n < |AllFields|
      invariant 0 <= n <= |AllFields|
      invariant item.fields == Rewrite(old(item.fields), AllFields[..n], Tidy)
    {
      RewriteStep(old(item.fields), AllFields, Tidy, n);
      var f := AllFields[n];
      if f in item.fields && item.fields[f] != "" {
        item.fields := item.fields[f := Strip(Collapse(item.fields[f]))];
      }
      n := n + 1;
    }
    assert AllFields[..n] == AllFields;
    if !Truthy(item.fields, Title) {
      return false;
    }
    if !Truthy(item.fields, Company) {
      item.fields := item.fields[Company := NotAvailable];
    }
    if !Truthy(item.fields, Location) {
      item.fields := item.fields[Location := DefaultLocation];
    }
    if !Truthy(item.fields, Description) {
      item.fields := item.fields[Description := NoDescription];
    }
    return true;
  }

  /** The assignments of parse's loop body for one card; null when the
      card has no title element. */
  method ExtractFields(a: Article, pageUrl: string, today: Date) returns (item: JobItem?)
    ensures item == null <==> a.title.None?
    ensures item != null ==> fresh(item) && item.fields == Extract(a, pageUrl, today).value
  {
    if a.title.None? {
      return null;
    }
    var m: Values := map[Title := Strip(a.title.value)];
    m := m[Company := if a.company.Some? then Strip(a.company.value) else NotAvailable];
    m := WithTags(m, a.tags);
    assert m == CardHead(a);
    m := m[Description := if a.description.Some? then Strip(a.description.value) else NoDescription];
    var (location, date) := BottomLine(a.bottomInfo, today);
    m := m[Location := location][PostedDate := date];
    m := Put(m, JobUrl, CardUrl(a.link, pageUrl));
    m := Put(m, Salary, None);
    item := new JobItem();
    item.fields := m[SourceWebsite := "keejob.com"];
  }

  /** The body of parse's loop for one card: the fields, then clean_item;
      null when the card is skipped or dropped. */
  method ParseArticle(a: Article, pageUrl: string, today: Date) returns (item: JobItem?)
    ensures item == null <==> ArticleItem(a, pageUrl, today).None?
    ensures item != null ==> fresh(item) && item.fields == ArticleItem(a, pageUrl, today).value
  {
    item := ExtractFields(a, pageUrl, today);
    if item != null {
      var kept := CleanItem(item);
      if !kept {
        item := null;
      }
    }
  }

  // ---------------------------------------------------------------------
  // Pagination
  // ---------------------------------------------------------------------

  const PagePrefix: string := "https://www.keejob.com/offres-emploi/?page="
  const StartUrl: string := "https://www.keejob.com/offres-emploi/?page=1"

  /** The URL of listing page n. */
  function PageUrl(n: nat): string {
    PagePrefix + NatToString(n)
  }

  /** The page number can be read back from a page URL. */
  lemma PageUrlNumber(n: nat)
    ensures |PageUrl(n)| > |PagePrefix| && PageUrl(n)[..|PagePrefix|] == PagePrefix
    ensures var digits := PageUrl(n)[|PagePrefix|..];
            (forall i :: 0 <= i < |digits| ==> '0' <= digits[i] <= '9') && DecimalValue(digits) == n
  {
    NatToStringRoundTrip(n);
    assert PageUrl(n)[|PagePrefix|..] == NatToString(n);
  }

  lemma StartIsPageOne()
    ensures StartUrl == PageUrl(1)
  {
    assert NatToString(1) == "1";
  }

  function Max(a: int, b: int): int {
    if a < b then b else a
  }

  /** The URLs of pages 1 to n. */
  function Pages(n: nat): (r: seq<string>)
    ensures |r| == n && forall i :: 0 <= i < n ==> r[i] == PageUrl(i + 1)
  {
    seq(n, i requires 0 <= i < n => PageUrl(i + 1))
  }

  class KeejobSpider {
    /** The listing page being scraped; the class attribute starts at 1. */
    var currentPage: int
    const maxPages: int

    /** The counter never passes the larger of 1 and max_pages. */
    ghost predicate Valid()
      reads this
    {
      1 <= currentPage <= Max(1, maxPages)
    }

    constructor (maxPages: int)
      ensures this.maxPages == maxPages && currentPage == 1 && Valid()
    {
      this.maxPages := maxPages;
      currentPage := 1;
    }

    /** The end of parse: the next page is requested while the counter is
        below max_pages, and the counter moves on by one. */
    method NextPage() returns (next: Option<string>)
      requires Valid()
      modifies this
      ensures Valid()
      ensures old(currentPage) < maxPages ==>
                currentPage == old(currentPage) + 1 && next == Some(PageUrl(currentPage))
      ensures old(currentPage) >= maxPages ==> currentPage == old(currentPage) && next == None
    {
      if currentPage < maxPages {
        currentPage := currentPage + 1;
        next := Some(PageUrl(currentPage));
      } else {
        next := None;
      }
    }

    /** parse on one listing page: the items of its cards, then the
        pagination step. */
    method Parse(articles: seq<Article>, responseUrl: string, today: Date)
      returns (items: seq<Values>, next: Option<string>)
      requires Valid()
      modifies this
      ensures items == PageItems(articles, responseUrl, today)
      ensures Valid()
      ensures old(currentPage) < maxPages ==>
                currentPage == old(currentPage) + 1 && next == Some(PageUrl(currentPage))
      ensures old(currentPage) >= maxPages ==> currentPage == old(currentPage) && next == None
    {
      items := [];
      var n := 0;
      while n < |articles|
        invariant 0 <= n <= |articles|
        invariant items == PageItems(articles[..n], responseUrl, today)
        invariant currentPage == old(currentPage)
      {
        PageItemsStep(articles, responseUrl, today, n);
        var item := ParseArticle(articles[n], responseUrl, today);
        if item != null {
          items := items + [item.fields];
        }
        n := n + 1;
      }
      assert articles[..n] == articles;
      next := NextPage();
    }
  }

  /** The listing pages a whole crawl requests: the start page, then each
      next page parse asks for, until the counter reaches max_pages. */
  method CrawlPages(maxPages: int) returns (urls: seq<string>)
    ensures urls == Pages(Max(1, maxPages))
  {
    var spider := new KeejobSpider(maxPages);
    StartIsPageOne();
    urls := [];
    var pending: Option<string> := Some(StartUrl);
    while pending.Some?
      invariant spider.Valid() && spider.maxPages == maxPages
      invariant pending.Some? ==> pending.value == PageUrl(spider.currentPage) && urls == Pages(spider.currentPage - 1)
      invariant pending.None? ==> urls == Pages(spider.currentPage) && spider.currentPage == Max(1, maxPages)
      decreases Max(1, maxPages) - spider.currentPage + (if pending.Some? then 1 else 0)
    {
      urls := urls + [pending.value];
      pending := spider.NextPage();
    }
  }
}
