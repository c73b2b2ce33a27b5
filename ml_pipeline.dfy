/**
 * MLDataCleaningPipeline.process_item as the pipeline runs it: one item
 * rewritten in place, stage by stage, each stage proved against the
 * corresponding function of the MLDataCleaning module.
 */
module MLPipeline {
  import opened Text
  import opened Items
  import opened SalaryPattern
  import opened MLDataCleaning

  /** MLDataCleaningPipeline.process_item on an item updated in place: the
      four stages in the order the pipeline runs them. */
  method ProcessItem(item: JobItem)
    modifies item
    ensures item.fields == ProcessSpec(old(item.fields))
  {
    CleanTextFields(item);
    NormaliseLocationField(item);
    NormaliseContractField(item);
    ExtractSalaryField(item);
  }

  /** The cleanup loop over the six text fields. */
  method CleanTextFields(item: JobItem)
    modifies item
    ensures item.fields == CleanFields(old(item.fields))
  {
    var n := 0;
    while n < |TextFields|
      invariant 0 <= n <= |TextFields|
      invariant item.fields == Rewrite(old(item.fields), TextFields[..n], CleanText)
    {
      RewriteStep(old(item.fields), TextFields, CleanText, n);
      CleanTextField(item, TextFields[n]);
      n := n + 1;
    }
    assert TextFields[..n] == TextFields;
  }

  /** The body of the cleanup loop for one field. */
  method CleanTextField(item: JobItem, field: Field)
    modifies item
    ensures item.fields == RewriteOne(old(item.fields), field, CleanText)
  {
    if field in item.fields && item.fields[field] != "" {
      var text := item.fields[field];
      text := Collapse(text);
      text := Filter(text, IsKept);
      text := Strip(text);
      item.fields := item.fields[field := text];
    }
  }

  /** The scan of location_map: the first key found in the location
      replaces it, and the scan stops there. */
  method NormaliseLocationField(item: JobItem)
    modifies item
    ensures item.fields == WithLocation(old(item.fields))
  {
    if Truthy(item.fields, Location) {
      var location := item.fields[Location];
      var k := 0;
      while k < |LocationTable|
        invariant 0 <= k <= |LocationTable|
        invariant item.fields == old(item.fields)
        invariant FirstKeyFrom(location, 0) == FirstKeyFrom(location, k)
      {
        var (key, value) := LocationTable[k];
        if Contains(LowerStr(location), LowerStr(key)) {
          item.fields := item.fields[Location := value];
          break;
        }
        k := k + 1;
      }
    }
  }

  /** The keyword tests on the upper-cased contract type. */
  method NormaliseContractField(item: JobItem)
    modifies item
    ensures item.fields == WithContract(old(item.fields))
  {
    if Truthy(item.fields, ContractType) {
      var contract := UpperStr(item.fields[ContractType]);
      if Contains(contract, "CDI") {
        item.fields := item.fields[ContractType := "CDI"];
      } else if Contains(contract, "CDD") {
        item.fields := item.fields[ContractType := "CDD"];
      } else if Contains(contract, "STAGE") || Contains(contract, "PFE") {
        item.fields := item.fields[ContractType := "Stage/PFE"];
      } else if Contains(contract, "SIVP") {
        item.fields := item.fields[ContractType := "SIVP"];
      } else if Contains(contract, "FREELANCE") {
        item.fields := item.fields[ContractType := "Freelance"];
      }
    }
  }

  /** The salary search over the description, when no salary is set. */
  method ExtractSalaryField(item: JobItem)
    modifies item
    ensures item.fields == WithSalary(old(item.fields))
  {
    if Truthy(item.fields, Description) && !Truthy(item.fields, Salary) {
      var description := item.fields[Description];
      var found := Search(description);
      if found.Some? {
        var (i, p) := found.value;
        item.fields := item.fields[Salary := description[i..p.a] + "-" + description[p.c..p.d] + " TND"];
      }
    }
  }
}
