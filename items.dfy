/**
 * The scraped record. A Scrapy item behaves like a dictionary from field
 * names to values; every value this code stores is a string or None. The
 * model keeps the set fields in a map: a field that was never set and a
 * field set to None both read back as None and are both absent here.
 */
module Items {
  import opened Text

  datatype Option<+T> = None | Some(value: T)

  /** The fields of JobItem, in the column order of the jobs table. */
  datatype Field =
    | Title | Company | Location | Sector | Description | Salary
    | ContractType | PostedDate | SourceWebsite | JobUrl | ScrapedAt

  const AllFields: seq<Field> :=
    [Title, Company, Location, Sector, Description, Salary,
     ContractType, PostedDate, SourceWebsite, JobUrl, ScrapedAt]

  lemma AllFieldsComplete(f: Field)
    ensures f in AllFields
  {
  }

  /** No field is listed twice. */
  lemma AllFieldsDistinct()
    ensures forall i, j :: 0 <= i < j < |AllFields| ==> AllFields[i] != AllFields[j]
  {
  }

  type Values = map<Field, string>

  /** The placeholders the spiders write into empty fields. */
  const NotAvailable: string := "N/A"
  const DefaultLocation: string := "Tunisia"
  const NoDescription: string := "No description available"

  lemma PlaceholdersAreWords()
    ensures GoodWord(NotAvailable) && GoodWord(DefaultLocation)
  {
  }

  lemma NoDescriptionWords()
    ensures GoodWord("No") && GoodWord("available") && GoodWord("description")
  {
    assert GoodWord("description");
  }

  lemma NoDescriptionSpelled()
    ensures NoDescription == "No" + " " + "description" + " " + "available"
  {
  }

  /** The placeholders are themselves collapsed, stripped text. */
  lemma PlaceholdersNormalised()
    ensures Normalised(NotAvailable) && Normalised(DefaultLocation) && Normalised(NoDescription)
  {
    PlaceholdersAreWords();
    NoDescriptionWords();
    NoDescriptionSpelled();
    ThreeWordsNormalised("No", "description", "available");
    WordNormalised(NotAvailable);
    WordNormalised(DefaultLocation);
  }

  /** item.get(field) */
  function Get(m: Values, f: Field): Option<string> {
    if f in m then Some(m[f]) else None
  }

  /** Python truthiness of item.get(field): set, not None and not "". */
  predicate Truthy(m: Values, f: Field) {
    f in m && m[f] != ""
  }

  /** Python truthiness of an optional string. */
  predicate IsTruthy(o: Option<string>) {
    o.Some? && o.value != ""
  }

  /** item[field] = value, where value may be None. */
  function Put(m: Values, f: Field, o: Option<string>): (r: Values)
    ensures Get(r, f) == o
  {
    match o
    case Some(s) => m[f := s]
    case None => m - {f}
  }

  /** Setting one field leaves the others as they were. */
  lemma PutOthers(m: Values, f: Field, o: Option<string>, g: Field)
    requires g != f
    ensures Get(Put(m, f, o), g) == Get(m, g)
  {
  }

  /** `if not item.get(field): item[field] = d` */
  function Default(m: Values, f: Field, d: string): (r: Values)
    requires d != ""
    ensures Truthy(r, f)
    ensures Truthy(m, f) ==> r == m
  {
    if Truthy(m, f) then m else m[f := d]
  }

  /** A default adds its own field and no other. */
  lemma DefaultKeys(m: Values, f: Field, d: string)
    requires d != ""
    ensures Default(m, f, d).Keys == m.Keys + {f}
  {
  }

  /** A default changes only its own field, and that only when empty. */
  lemma DefaultGet(m: Values, f: Field, d: string, g: Field)
    requires d != ""
    ensures Get(Default(m, f, d), g) == if g == f && !IsTruthy(Get(m, f)) then Some(d) else Get(m, g)
  {
  }

  /** One turn of a rewriting loop: field f, if set and non-empty, is
      replaced by g of its value. */
  function RewriteOne(m: Values, f: Field, g: string -> string): Values {
    if f in m && m[f] != "" then m[f := g(m[f])] else m
  }

  /** A loop over the fields fs, in order, rewriting each that is set and
      non-empty. */
  function Rewrite(m: Values, fs: seq<Field>, g: string -> string): Values
    decreases |fs|
  {
    if fs == [] then m else RewriteOne(Rewrite(m, fs[..|fs| - 1], g), fs[|fs| - 1], g)
  }

  /** One more turn of the loop over a prefix of fs. */
  lemma RewriteStep(m: Values, fs: seq<Field>, g: string -> string, n: nat)
    requires n < |fs|
    ensures Rewrite(m, fs[..n + 1], g) == RewriteOne(Rewrite(m, fs[..n], g), fs[n], g)
  {
    assert fs[..n + 1][..n] == fs[..n];
  }

  /** Over distinct fields the loop keeps the set of fields; each visited
      field that was set and non-empty holds g of its original value and
      every other field is unchanged. */
  lemma {:induction false} RewriteSpec(m: Values, fs: seq<Field>, g: string -> string)
    requires forall i, j :: 0 <= i < j < |fs| ==> fs[i] != fs[j]
    ensures Rewrite(m, fs, g).Keys == m.Keys
    ensures forall f :: f in m ==>
              Rewrite(m, fs, g)[f] == if f in fs && m[f] != "" then g(m[f]) else m[f]
    decreases |fs|
  {
    if fs != [] {
      var init, f := fs[..|fs| - 1], fs[|fs| - 1];
      RewriteSpec(m, init, g);
      assert fs == init + [f];
      assert f !in init;
    }
  }

  /** A scraped item, updated in place by the spider and by each pipeline. */
  class JobItem {
    var fields: Values

    constructor ()
      ensures fields == map[]
    {
      fields := map[];
    }
  }
}
