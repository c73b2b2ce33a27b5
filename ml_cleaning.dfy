/**
 * MLDataCleaningPipeline.process_item: the first pipeline stage. It rewrites
 * one item in place: text cleanup on six fields, location canonicalisation
 * against a fixed table, contract-type canonicalisation and salary
 * extraction from the description.
 */
module MLDataCleaning {
  import opened Text
  import opened Items
  import opened SalaryPattern

  /** The fields the cleanup loop visits, in loop order. */
  const TextFields: seq<Field> := [Title, Company, Location, Sector, Description, ContractType]

  /** The accented letters the removal class lists explicitly. */
  const Accents: string := "éèêëàâäôöùûüçîï"

  /** Characters that survive re.sub(r'[^\w\s\-/.,éèêëàâäôöùûüçîï]', ''). */
  predicate IsKept(c: char) {
    IsWordChar(c) || IsSpace(c) || c == '-' || c == '/' || c == '.' || c == ',' || c in Accents
  }

  /** One field's cleanup: collapse whitespace, delete special characters,
      strip. */
  function CleanText(s: string): string {
    Strip(Filter(Collapse(s), IsKept))
  }

  /** The cleaned text has no whitespace at either end and keeps only word
      characters, whitespace, "-/.," and the listed accented letters. */
  lemma CleanTextSpec(s: string)
    ensures var r := CleanText(s);
            (r != [] ==> !IsSpace(r[0]) && !IsSpace(r[|r| - 1]))
            && forall i :: 0 <= i < |r| ==> IsKept(r[i])
  {
    FilterSpec(Collapse(s), IsKept);
    StripChars(Filter(Collapse(s), IsKept));
  }

  /** The cleanup loop over the six text fields. */
  function CleanFields(m: Values): Values {
    Rewrite(m, TextFields, CleanText)
  }

  /** The cleanup replaces each of the six text fields that is set and
      non-empty by its cleaned text. */
  lemma CleanFieldsCleans(m: Values, g: Field)
    requires g in TextFields
    ensures Get(CleanFields(m), g) == if Truthy(m, g) then Some(CleanText(m[g])) else Get(m, g)
  {
    RewriteSpec(m, TextFields, CleanText);
  }

  /** The cleanup leaves every other field as it is. */
  lemma CleanFieldsKeeps(m: Values, g: Field)
    requires g !in TextFields
    ensures Get(CleanFields(m), g) == Get(m, g)
  {
    RewriteSpec(m, TextFields, CleanText);
  }

  // ---------------------------------------------------------------------
  // Location
  // ---------------------------------------------------------------------

  /** location_map, in insertion order; every value equals its key. */
  const LocationTable: seq<(string, string)> := [
    ("Tunis", "Tunis"), ("Ariana", "Ariana"), ("Ben Arous", "Ben Arous"),
    ("Manouba", "Manouba"), ("Sfax", "Sfax"), ("Sousse", "Sousse"),
    ("Monastir", "Monastir"), ("Nabeul", "Nabeul"), ("Bizerte", "Bizerte")]

  /** key.lower() in location.lower() */
  predicate KeyOccurs(loc: string, k: nat)
    requires k < |LocationTable|
  {
    Contains(LowerStr(loc), LowerStr(LocationTable[k].0))
  }

  /** The first table index from k on whose key occurs in loc. */
  function FirstKeyFrom(loc: string, k: nat): (r: Option<nat>)
    requires k <= |LocationTable|
    ensures r.Some? ==> k <= r.value < |LocationTable| && KeyOccurs(loc, r.value)
    ensures r.Some? ==> forall j :: k <= j < r.value ==> !KeyOccurs(loc, j)
    ensures r.None? ==> forall j :: k <= j < |LocationTable| ==> !KeyOccurs(loc, j)
    decreases |LocationTable| - k
  {
    if k == |LocationTable| then None
    else if KeyOccurs(loc, k) then Some(k)
    else FirstKeyFrom(loc, k + 1)
  }

  /** The location after canonicalisation: the value of the first key that
      occurs in it ignoring case, or the location itself. */
  function NormaliseLocation(loc: string): string {
    match FirstKeyFrom(loc, 0)
    case Some(k) => LocationTable[k].1
    case None => loc
  }

  const LowerKeys: seq<string> :=
    ["tunis", "ariana", "ben arous", "manouba", "sfax", "sousse", "monastir", "nabeul", "bizerte"]

  lemma LowerKeysCorrect()
    ensures |LowerKeys| == |LocationTable|
    ensures forall k :: 0 <= k < |LocationTable| ==>
              LowerStr(LocationTable[k].0) == LowerKeys[k] && LowerStr(LocationTable[k].1) == LowerKeys[k]
  {
    forall k | 0 <= k < |LocationTable|
      ensures LowerStr(LocationTable[k].0) == LowerKeys[k] && LowerStr(LocationTable[k].1) == LowerKeys[k]
    {
      LowerKey(k);
    }
  }

  /** One key of the table, lower-cased. */
  lemma LowerKey(k: nat)
    requires k < |LocationTable|
    ensures LowerStr(LocationTable[k].0) == LowerKeys[k] && LocationTable[k].1 == LocationTable[k].0
  {
  }

  /** "ariana" does not occur in "monastir": the three six-letter windows
      of "monastir" start with 'm', 'o' and 'n'. */
  lemma ShortWindow(h: string, n: string)
    requires h == "monastir" && n == "ariana"
    ensures !Contains(h, n)
  {
    assert h[0..6][0] != n[0] && h[1..7][0] != n[0] && h[2..8][0] != n[0];
  }

  /** No earlier key occurs in the keys "ariana" to "sousse", each pair shown
      by a character of the earlier key that the later one lacks. */
  lemma EarlyKeysIndependent(j: nat, k: nat)
    requires j < k && 1 <= k <= 5
    ensures !Contains(LowerKeys[k], LowerKeys[j])
  {
    if k == 1 {
      assert LowerKeys[k] == "ariana";
      assert LowerKeys[j] == "tunis"; MissingChar("ariana", "tunis", 0);
    } else if k == 2 {
      assert LowerKeys[k] == "ben arous";
      if j == 0 { assert LowerKeys[j] == "tunis"; MissingChar("ben arous", "tunis", 0); }
      else { assert LowerKeys[j] == "ariana"; MissingChar("ben arous", "ariana", 2); }
    } else if k == 3 {
      assert LowerKeys[k] == "manouba";
      if j == 0 { assert LowerKeys[j] == "tunis"; MissingChar("manouba", "tunis", 0); }
      else if j == 1 { assert LowerKeys[j] == "ariana"; MissingChar("manouba", "ariana", 1); }
      else { assert LowerKeys[j] == "ben arous"; MissingChar("manouba", "ben arous", 1); }
    } else if k == 4 {
      assert LowerKeys[k] == "sfax";
      if j == 0 { assert LowerKeys[j] == "tunis"; MissingChar("sfax", "tunis", 0); }
      else if j == 1 { assert LowerKeys[j] == "ariana"; MissingChar("sfax", "ariana", 1); }
      else if j == 2 { assert LowerKeys[j] == "ben arous"; MissingChar("sfax", "ben arous", 0); }
      else { assert LowerKeys[j] == "manouba"; MissingChar("sfax", "manouba", 0); }
    } else {
      assert LowerKeys[k] == "sousse";
      if j == 0 { assert LowerKeys[j] == "tunis"; MissingChar("sousse", "tunis", 0); }
      else if j == 1 { assert LowerKeys[j] == "ariana"; MissingChar("sousse", "ariana", 0); }
      else if j == 2 { assert LowerKeys[j] == "ben arous"; MissingChar("sousse", "ben arous", 0); }
      else if j == 3 { assert LowerKeys[j] == "manouba"; MissingChar("sousse", "manouba", 0); }
      else { assert LowerKeys[j] == "sfax"; MissingChar("sousse", "sfax", 1); }
    }
  }
  /** The same for the keys "monastir" to "bizerte". */
  lemma LateKeysIndependent(j: nat, k: nat)
    requires j < k && 6 <= k <= 8
    ensures !Contains(LowerKeys[k], LowerKeys[j])
  {
    if k == 6 {
      assert LowerKeys[k] == "monastir";
      if j == 0 { assert LowerKeys[j] == "tunis"; MissingChar("monastir", "tunis", 1); }
      else if j == 1 { assert LowerKeys[j] == "ariana"; ShortWindow("monastir", "ariana"); }
      else if j == 2 { assert LowerKeys[j] == "ben arous"; MissingChar("monastir", "ben arous", 0); }
      else if j == 3 { assert LowerKeys[j] == "manouba"; MissingChar("monastir", "manouba", 4); }
      else if j == 4 { assert LowerKeys[j] == "sfax"; MissingChar("monastir", "sfax", 1); }
      else { assert LowerKeys[j] == "sousse"; MissingChar("monastir", "sousse", 2); }
    } else if k == 7 {
      assert LowerKeys[k] == "nabeul";
      if j == 0 { assert LowerKeys[j] == "tunis"; MissingChar("nabeul", "tunis", 0); }
      else if j == 1 { assert LowerKeys[j] == "ariana"; MissingChar("nabeul", "ariana", 1); }
      else if j == 2 { assert LowerKeys[j] == "ben arous"; MissingChar("nabeul", "ben arous", 3); }
      else if j == 3 { assert LowerKeys[j] == "manouba"; MissingChar("nabeul", "manouba", 0); }
      else if j == 4 { assert LowerKeys[j] == "sfax"; MissingChar("nabeul", "sfax", 0); }
      else if j == 5 { assert LowerKeys[j] == "sousse"; MissingChar("nabeul", "sousse", 0); }
      else { assert LowerKeys[j] == "monastir"; MissingChar("nabeul", "monastir", 0); }
    } else {
      assert LowerKeys[k] == "bizerte";
      if j == 0 { assert LowerKeys[j] == "tunis"; MissingChar("bizerte", "tunis", 1); }
      else if j == 1 { assert LowerKeys[j] == "ariana"; MissingChar("bizerte", "ariana", 0); }
      else if j == 2 { assert LowerKeys[j] == "ben arous"; MissingChar("bizerte", "ben arous", 2); }
      else if j == 3 { assert LowerKeys[j] == "manouba"; MissingChar("bizerte", "manouba", 0); }
      else if j == 4 { assert LowerKeys[j] == "sfax"; MissingChar("bizerte", "sfax", 0); }
      else if j == 5 { assert LowerKeys[j] == "sousse"; MissingChar("bizerte", "sousse", 0); }
      else if j == 6 { assert LowerKeys[j] == "monastir"; MissingChar("bizerte", "monastir", 0); }
      else { assert LowerKeys[j] == "nabeul"; MissingChar("bizerte", "nabeul", 0); }
    }
  }
  /** No key occurs inside a later key of the table. */
  lemma KeysIndependent(j: nat, k: nat)
    requires j < k < |LowerKeys|
    ensures !Contains(LowerKeys[k], LowerKeys[j])
  {
    if k <= 5 { EarlyKeysIndependent(j, k); } else { LateKeysIndependent(j, k); }
  }

  lemma TableValueMatchesItself(k: nat)
    requires k < |LocationTable|
    ensures FirstKeyFrom(LocationTable[k].1, 0) == Some(k)
  {
    LowerKeysCorrect();
    ContainsSelf(LowerKeys[k]);
    assert KeyOccurs(LocationTable[k].1, k);
    forall j | 0 <= j < k ensures !KeyOccurs(LocationTable[k].1, j) {
      KeysIndependent(j, k);
    }
  }

  /** Canonicalising a canonical location changes nothing. */
  lemma NormaliseLocationIdempotent(loc: string)
    ensures NormaliseLocation(NormaliseLocation(loc)) == NormaliseLocation(loc)
  {
    match FirstKeyFrom(loc, 0)
    case Some(k) => TableValueMatchesItself(k);
    case None =>
  }

  /** The location becomes the key of the first table entry whose key
      occurs in it ignoring case; when no key occurs it is kept. */
  lemma NormaliseLocationSpec(loc: string)
    ensures forall k :: (0 <= k < |LocationTable| && KeyOccurs(loc, k)
                         && forall j :: 0 <= j < k ==> !KeyOccurs(loc, j))
                        ==> NormaliseLocation(loc) == LocationTable[k].0
    ensures (forall k :: 0 <= k < |LocationTable| ==> !KeyOccurs(loc, k)) ==> NormaliseLocation(loc) == loc
  {
    match FirstKeyFrom(loc, 0)
    case Some(k) =>
    case None =>
  }

  /** "Tunis" is tried first, so any location mentioning it in any case
      becomes "Tunis", even when it also names another governorate. */
  lemma MentionsTunis(loc: string)
    requires Contains(LowerStr(loc), "tunis")
    ensures NormaliseLocation(loc) == "Tunis"
  {
    LowerKeysCorrect();
    assert KeyOccurs(loc, 0);
  }

  /** For instance "Tunisia" becomes "Tunis". */
  lemma TunisiaBecomesTunis()
    ensures NormaliseLocation("Tunisia") == "Tunis"
  {
    assert LowerStr("Tunisia") == "tunisia";
    assert OccursAt("tunisia", "tunis", 0);
    MentionsTunis("Tunisia");
  }

  // ---------------------------------------------------------------------
  // Contract type
  // ---------------------------------------------------------------------

  const ContractLabels: set<string> := {"CDI", "CDD", "Stage/PFE", "SIVP", "Freelance"}

  predicate HasContractKeyword(u: string) {
    Contains(u, "CDI") || Contains(u, "CDD") || Contains(u, "STAGE") || Contains(u, "PFE")
    || Contains(u, "SIVP") || Contains(u, "FREELANCE")
  }

  /** The contract type after canonicalisation, checked on the upper-cased
      value in the order CDI, CDD, STAGE/PFE, SIVP, FREELANCE: one of the
      five labels, or the value itself when no keyword occurs. */
  function NormaliseContract(c: string): (r: string)
    ensures r in ContractLabels || r == c
    ensures !HasContractKeyword(UpperStr(c)) ==> r == c
  {
    var u := UpperStr(c);
    if Contains(u, "CDI") then "CDI"
    else if Contains(u, "CDD") then "CDD"
    else if Contains(u, "STAGE") || Contains(u, "PFE") then "Stage/PFE"
    else if Contains(u, "SIVP") then "SIVP"
    else if Contains(u, "FREELANCE") then "Freelance"
    else c
  }

  /** "CDI", "CDD" and "Stage/PFE" are their own canonical forms: each
      upper-cased label contains its own keyword and none tested before it. */
  lemma FirstLabelsFixed(c: string)
    requires c == "CDI" || c == "CDD" || c == "Stage/PFE"
    ensures NormaliseContract(c) == c
  {
    if c == "CDI" {
      assert UpperStr(c) == "CDI";
      ContainsSelf("CDI");
    } else if c == "CDD" {
      assert UpperStr(c) == "CDD";
      MissingChar("CDD", "CDI", 2);
      ContainsSelf("CDD");
    } else {
      assert UpperStr(c) == "STAGE/PFE";
      MissingChar("STAGE/PFE", "CDI", 0);
      MissingChar("STAGE/PFE", "CDD", 0);
      assert OccursAt("STAGE/PFE", "STAGE", 0);
    }
  }

  /** The same for "SIVP" and "Freelance". */
  lemma LastLabelsFixed(c: string)
    requires c == "SIVP" || c == "Freelance"
    ensures NormaliseContract(c) == c
  {
    if c == "SIVP" {
      assert UpperStr(c) == "SIVP";
      MissingChar("SIVP", "CDI", 0);
      MissingChar("SIVP", "CDD", 0);
      MissingChar("SIVP", "STAGE", 1);
      MissingChar("SIVP", "PFE", 1);
      ContainsSelf("SIVP");
    } else {
      assert UpperStr(c) == "FREELANCE";
      MissingChar("FREELANCE", "CDI", 1);
      MissingChar("FREELANCE", "CDD", 1);
      MissingChar("FREELANCE", "STAGE", 1);
      MissingChar("FREELANCE", "PFE", 0);
      MissingChar("FREELANCE", "SIVP", 0);
      ContainsSelf("FREELANCE");
    }
  }

  /** Each of the five labels is its own canonical form. */
  lemma LabelsAreFixed(c: string)
    requires c in ContractLabels
    ensures NormaliseContract(c) == c
  {
    if c == "CDI" || c == "CDD" || c == "Stage/PFE" { FirstLabelsFixed(c); } else { LastLabelsFixed(c); }
  }

  /** The value is left as it is exactly when it is already a label or
      contains none of the keywords. */
  lemma ContractUnchangedIff(c: string)
    ensures NormaliseContract(c) == c <==> c in ContractLabels || !HasContractKeyword(UpperStr(c))
  {
    if c in ContractLabels { LabelsAreFixed(c); }
  }

  /** Each upper-cased label holds one of the keywords. */
  lemma LabelHasKeyword(c: string)
    requires c in ContractLabels
    ensures HasContractKeyword(UpperStr(c))
  {
    if c == "CDI" {
      assert UpperStr(c) == "CDI";
      ContainsSelf("CDI");
    } else if c == "CDD" {
      assert UpperStr(c) == "CDD";
      ContainsSelf("CDD");
    } else if c == "Stage/PFE" {
      assert UpperStr(c) == "STAGE/PFE";
      assert OccursAt("STAGE/PFE", "STAGE", 0);
    } else if c == "SIVP" {
      assert UpperStr(c) == "SIVP";
      ContainsSelf("SIVP");
    } else {
      assert UpperStr(c) == "FREELANCE";
      ContainsSelf("FREELANCE");
    }
  }

  /** Which keyword gives which label: the first keyword in the order CDI,
      CDD, STAGE or PFE, SIVP, FREELANCE that occurs in the upper-cased
      value decides, and each label results only from its own keyword. */
  lemma NormaliseContractPriority(c: string)
    ensures var u := UpperStr(c);
      NormaliseContract(c) == "CDI" <==> Contains(u, "CDI")
    ensures var u := UpperStr(c);
      NormaliseContract(c) == "CDD" <==> !Contains(u, "CDI") && Contains(u, "CDD")
    ensures var u := UpperStr(c);
      NormaliseContract(c) == "Stage/PFE" <==>
        !Contains(u, "CDI") && !Contains(u, "CDD") && (Contains(u, "STAGE") || Contains(u, "PFE"))
    ensures var u := UpperStr(c);
      NormaliseContract(c) == "SIVP" <==>
        !Contains(u, "CDI") && !Contains(u, "CDD") && !Contains(u, "STAGE") && !Contains(u, "PFE")
        && Contains(u, "SIVP")
    ensures var u := UpperStr(c);
      NormaliseContract(c) == "Freelance" <==>
        !Contains(u, "CDI") && !Contains(u, "CDD") && !Contains(u, "STAGE") && !Contains(u, "PFE")
        && !Contains(u, "SIVP") && Contains(u, "FREELANCE")
  {
    if !HasContractKeyword(UpperStr(c)) && c in ContractLabels { LabelHasKeyword(c); }
  }

  /** Canonicalising a contract type twice is the same as once. */
  lemma NormaliseContractIdempotent(c: string)
    ensures NormaliseContract(NormaliseContract(c)) == NormaliseContract(c)
  {
    if NormaliseContract(c) != c { LabelsAreFixed(NormaliseContract(c)); }
  }

  // ---------------------------------------------------------------------
  // The whole stage
  // ---------------------------------------------------------------------

  function WithLocation(m: Values): Values {
    if Truthy(m, Location) then m[Location := NormaliseLocation(m[Location])] else m
  }

  function WithContract(m: Values): Values {
    if Truthy(m, ContractType) then m[ContractType := NormaliseContract(m[ContractType])] else m
  }

  function WithSalary(m: Values): Values {
    if Truthy(m, Description) && !Truthy(m, Salary) then
      match ExtractSalary(m[Description])
      case Some(sal) => m[Salary := sal]
      case None => m
    else m
  }

  /** The location step writes no field but the location. */
  lemma WithLocationOthers(c: Values, g: Field)
    requires g != Location
    ensures Get(WithLocation(c), g) == Get(c, g)
  {
  }

  /** The salary step writes no field but the salary. */
  lemma WithSalaryOthers(k: Values, g: Field)
    requires g != Salary
    ensures Get(WithSalary(k), g) == Get(k, g)
  {
  }

  /** The item after process_item. */
  function ProcessSpec(m: Values): Values {
    WithSalary(WithContract(WithLocation(CleanFields(m))))
  }

  /** Fields the stage never touches keep their value. */
  lemma ProcessKeepsOtherFields(m: Values, g: Field)
    requires g in {PostedDate, SourceWebsite, JobUrl, ScrapedAt}
    ensures Get(ProcessSpec(m), g) == Get(m, g)
  {
    var c := CleanFields(m);
    CleanFieldsKeeps(m, g);
    var l := WithLocation(c);
    WithLocationOthers(c, g);
    var k := WithContract(l);
    assert Get(k, g) == Get(l, g);
    WithSalaryOthers(k, g);
  }

  lemma CleanFieldsKeys(m: Values)
    ensures CleanFields(m).Keys == m.Keys
  {
    RewriteSpec(m, TextFields, CleanText);
  }

  /** The stage adds at most the salary field and removes none. */
  lemma ProcessKeys(m: Values)
    ensures m.Keys <= ProcessSpec(m).Keys <= m.Keys + {Salary}
  {
    var c := CleanFields(m);
    CleanFieldsKeys(m);
    var l := WithLocation(c);
    var k := WithContract(l);
    assert k.Keys == c.Keys;
    assert k.Keys <= WithSalary(k).Keys <= k.Keys + {Salary};
  }

  /** Title, company, sector and description are cleaned when set and
      non-empty, and left alone otherwise. */
  lemma ProcessCleansText(m: Values, g: Field)
    requires g in {Title, Company, Sector, Description}
    ensures Get(ProcessSpec(m), g) == if Truthy(m, g) then Some(CleanText(m[g])) else Get(m, g)
  {
    var c := CleanFields(m);
    CleanFieldsCleans(m, g);
    var l := WithLocation(c);
    WithLocationOthers(c, g);
    var k := WithContract(l);
    assert Get(k, g) == Get(l, g);
    WithSalaryOthers(k, g);
  }

  lemma NoKeyInEmpty(k: nat)
    requires k < |LocationTable|
    ensures !KeyOccurs("", k)
  {
    LowerKeysCorrect();
  }

  /** The location is cleaned and then canonicalised. */
  lemma ProcessLocation(m: Values)
    ensures Get(ProcessSpec(m), Location) ==
              if Truthy(m, Location) then Some(NormaliseLocation(CleanText(m[Location]))) else Get(m, Location)
  {
    var c := CleanFields(m);
    CleanFieldsCleans(m, Location);
    if Truthy(m, Location) && CleanText(m[Location]) == "" {
      forall k | 0 <= k < |LocationTable| ensures !KeyOccurs("", k) { NoKeyInEmpty(k); }
      assert NormaliseLocation("") == "";
    }
    var l := WithLocation(c);
    var k := WithContract(l);
    assert Get(k, Location) == Get(l, Location);
    WithSalaryOthers(k, Location);
  }

  /** The contract type is cleaned and then canonicalised. */
  lemma ProcessContract(m: Values)
    ensures Get(ProcessSpec(m), ContractType) ==
              if Truthy(m, ContractType) then Some(NormaliseContract(CleanText(m[ContractType])))
              else Get(m, ContractType)
  {
    var c := CleanFields(m);
    CleanFieldsCleans(m, ContractType);
    var l := WithLocation(c);
    WithLocationOthers(c, ContractType);
    var k := WithContract(l);
    WithSalaryOthers(k, ContractType);
  }

  /** The salary step on its own. */
  lemma SalaryStep(k: Values)
    ensures Get(WithSalary(k), Salary) ==
              if !Truthy(k, Salary) && Truthy(k, Description) && ExtractSalary(k[Description]).Some?
              then ExtractSalary(k[Description])
              else Get(k, Salary)
  {
  }

  /** A salary that is set and non-empty is kept; otherwise the salary
      found in the cleaned description, if any, is written. */
  lemma ProcessSalary(m: Values)
    ensures Get(ProcessSpec(m), Salary) ==
              if !Truthy(m, Salary) && Truthy(m, Description) && CleanText(m[Description]) != ""
                 && ExtractSalary(CleanText(m[Description])).Some?
              then ExtractSalary(CleanText(m[Description]))
              else Get(m, Salary)
  {
    var c := CleanFields(m);
    CleanFieldsKeeps(m, Salary);
    CleanFieldsCleans(m, Description);
    var l := WithLocation(c);
    var k := WithContract(l);
    assert Get(k, Salary) == Get(m, Salary);
    assert Get(k, Description) == Get(c, Description);
    SalaryStep(k);
  }
}
