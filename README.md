# job_scraper ingestion: a verified model

This project models how job_scraper normalises scraped job postings on the
ingestion side, in Dafny:

- the two spiders build an item from one job card (Keejob) or one job
  page (Tanitjobs) and tidy it with their own `clean_item`;
- `MLDataCleaningPipeline.process_item` then rewrites the item in place:
  - text cleanup on six fields;
  - location canonicalisation against an ordered table;
  - contract-type canonicalisation in priority order;
  - salary extraction from the description;
- `JsonWriterPipeline` appends each item to a JSON array in a file.

The code itself changes things step by step, so the model does the same:
- A `JobItem` is a class whose `fields` map is updated in place.
- Each loop of the source is a `method` with a `while` loop and invariants.
- Each method is proved against a specification function.
- The properties the source relies on are proved about those functions as
  lemmas.

Modules, in dependency order:

- `Text` (text.dfy) models Python's string builtins:
  - `str.isspace`, `str.split()`, `' '.join`, `str.strip()`;
  - `str.lower`/`str.upper`, substring tests, `str(n)`;
  - the character classes `\w` and `\d`.
- `Items` (items.dfy) holds:
  - the fields of `JobItem` and the placeholders the spiders write;
  - Python truthiness of `item.get(field)`;
  - the loop that rewrites every set field (`Rewrite`);
  - the class `JobItem`.
- `Dates` (dates.dfy) holds `strftime('%d/%m/%Y')` and a leftmost scan
  for `\d{1,2}/\d{1,2}/\d{4}`, next to a declarative description of a date.
- `SalaryPattern` (salary.dfy) writes the salary regex as a leftmost scan
  and proves it equal to the declarative meaning of a match.
- `MLDataCleaning` (ml_cleaning.dfy) states what `process_item` computes,
  stage by stage, as functions on the field map, with the lemmas about them.
- `MLPipeline` (ml_pipeline.dfy) implements `process_item` as a method on
  the item, with the source's loops, and proves it against
  `MLDataCleaning.ProcessSpec`.
- `JsonWriter` (json_writer.dfy) is the writer as a class:
  - the file is a string buffer;
  - `json.dumps` is a function given to the constructor.
- `Keejob` (keejob.dfy) covers the Keejob spider:
  - the fields taken from a card;
  - the `•` split of the bottom line;
  - `clean_item`;
  - the page counter.
- `Tanitjobs` (tanitjobs.dfy) covers the Tanitjobs spider:
  - the requests `parse` yields;
  - the fields `parse_job_details` fills;
  - `clean_item`.

Inputs the code reads from elsewhere are parameters:
- today's date (`datetime.now()`) is a `Date`;
- `json.dumps` is a function `Values -> string`;
- `response.urljoin` is a function `string -> string`;
- the text of every element the spiders look up is an `Option<string>`,
  which is `None` where the element is missing.

An item maps field names to strings. A field set to `None` and a field never
set both read back as `None`, so both are absent from the map.

## Model

| member | source | states |
|---|---|---|
| Text.WordsAreGood | job_scraper/pipelines.py:124 | every word `str.split()` returns is non-empty and free of whitespace |
| Text.WordsEmptyIff | job_scraper/pipelines.py:124 | `str.split()` returns no words exactly when the text is all whitespace |
| Text.CollapseNormalised | job_scraper/pipelines.py:124 | `' '.join(s.split())` has no whitespace at either end, and its only whitespace is single ' ' characters; it is empty exactly when s is all whitespace |
| Text.CollapseFixesNormalised | job_scraper/spiders/keejob.py:184 | text that is already collapsed and stripped is left unchanged by `' '.join(s.split())` |
| Text.CollapseIdempotent | job_scraper/spiders/keejob.py:184 | collapsing twice gives the same text as collapsing once |
| Text.Strip | job_scraper/pipelines.py:127 | `str.strip()` returns text no longer than its input that neither starts nor ends with whitespace |
| Text.StripSubstring | job_scraper/pipelines.py:127 | `str.strip()` returns a contiguous slice of its input and removes only whitespace on either side |
| Text.StripEmptyIff | job_scraper/spiders/tanitjobs.py:100 | `str.strip()` returns "" exactly when the text is all whitespace |
| Text.StripCollapse | job_scraper/spiders/keejob.py:184 | the `.strip()` after `' '.join(s.split())` has nothing left to remove |
| Text.CollapseStrip | job_scraper/spiders/tanitjobs.py:100-102 | stripping and then collapsing gives normalised text, which is empty exactly when the input is all whitespace |
| Text.FilterSpec | job_scraper/pipelines.py:126 | character deletion keeps only wanted characters, and keeps everything when every character is wanted |
| Text.FilterChar | job_scraper/pipelines.py:126 | a single character survives the deletion exactly when it is wanted |
| Text.FilterAppend | job_scraper/pipelines.py:126 | deleting from a concatenation deletes from each part in turn, so every wanted character survives, in order |
| Text.CollapseKeepsChars | job_scraper/pipelines.py:124 | `' '.join(s.split())` removes or rewrites only whitespace: its non-whitespace characters are those of s, in order |
| Text.SpaceFreeInCollapse | job_scraper/spiders/tanitjobs.py:100-102 | any non-empty run without whitespace inside the stripped and collapsed text already occurs in the original text |
| Text.NatToStringRoundTrip | job_scraper/spiders/keejob.py:173 | reading back the decimal digits of `str(n)` gives n |
| Items.PlaceholdersNormalised | job_scraper/spiders/keejob.py:191-196 | "N/A", "Tunisia" and "No description available" are themselves collapsed and stripped |
| Items.DefaultGet | job_scraper/spiders/keejob.py:191-196 | `if not item.get(f): item[f] = d` sets f to d only when f was empty or unset, and changes no other field |
| Items.DefaultKeys | job_scraper/spiders/tanitjobs.py:113-123 | a default adds its own field to the item and no other field |
| Items.RewriteSpec | job_scraper/spiders/keejob.py:182-184 | a loop over distinct fields keeps the set of fields, replaces each visited field that is set and non-empty by the rewritten value, and leaves all other fields as they were |
| Dates.Strftime | job_scraper/spiders/keejob.py:146 | `strftime('%d/%m/%Y')` gives ten characters: two ASCII digits, '/', two, '/', four; read back as decimals the three groups are the day, the month and the year, in that order |
| Dates.StrftimeIsDate | job_scraper/spiders/tanitjobs.py:123 | today's date as rendered is itself of the searched date form and is found at position 0 |
| Dates.MatchAtComplete | job_scraper/spiders/tanitjobs.py:109 | whenever a date starts at i, the anchored scan finds exactly that date; the two digit groups are bounded by the slashes, so at most one date starts at i |
| Dates.SearchDateSpec | job_scraper/spiders/tanitjobs.py:109 | `re.search` finds the leftmost substring of the date form, and finds nothing exactly when no substring has that form |
| Dates.DateIsNormalised | job_scraper/spiders/tanitjobs.py:109-111 | a matched date is non-empty and made only of digits and slashes |
| SalaryPattern.MatchAtSound | job_scraper/pipelines.py:165-166 | a span the anchored scan reports is a match of `(\d+)\s*[-à]\s*(\d+)\s*(?:TND\|DT\|dinars?)` ignoring case |
| SalaryPattern.MatchAtComplete | job_scraper/pipelines.py:165-166 | whenever a match starts at a position, the anchored scan succeeds there; greedy runs lose nothing to backtracking |
| SalaryPattern.SearchFromSpec | job_scraper/pipelines.py:166 | the search stops at the first position where the anchored scan succeeds |
| SalaryPattern.ExtractSalarySpec | job_scraper/pipelines.py:164-168 | a salary is found exactly when the text holds a match; it is then the two digit groups of the leftmost match joined by '-' and followed by " TND" |
| SalaryPattern.ExtractSalaryShape | job_scraper/pipelines.py:168 | an extracted salary reads "<digits>-<digits> TND" with both digit groups non-empty |
| MLDataCleaning.CleanTextSpec | job_scraper/pipelines.py:123-127 | a cleaned value has no whitespace at either end and holds only word characters, whitespace, `-/.,` and the listed accented letters |
| MLDataCleaning.CleanFieldsCleans | job_scraper/pipelines.py:120-127 | each of the six text fields that is set and non-empty is replaced by its cleaned text; an empty or unset one is left alone |
| MLDataCleaning.CleanFieldsKeeps | job_scraper/pipelines.py:120-127 | the cleanup loop leaves salary, posted_date, source_website, job_url and scraped_at unchanged |
| MLDataCleaning.FirstKeyFrom | job_scraper/pipelines.py:144-147 | the scan returns the first table index whose key occurs in the location ignoring case, or reports that no key occurs |
| MLDataCleaning.NormaliseLocationSpec | job_scraper/pipelines.py:130-147 | the location becomes the value for the first key in table order that occurs in it ignoring case; when no key occurs it is kept |
| MLDataCleaning.KeysIndependent | job_scraper/pipelines.py:133-143 | no key of the location table occurs inside a later key |
| MLDataCleaning.NormaliseLocationIdempotent | job_scraper/pipelines.py:133-147 | canonicalising a location twice is the same as once, because every table value equals its key |
| MLDataCleaning.MentionsTunis | job_scraper/pipelines.py:133-147 | any location containing "tunis" in any case becomes "Tunis", even when it also names another governorate |
| MLDataCleaning.TunisiaBecomesTunis | job_scraper/pipelines.py:133-147 | "Tunisia" becomes "Tunis" |
| MLDataCleaning.NormaliseContract | job_scraper/pipelines.py:150-161 | the result is one of CDI, CDD, Stage/PFE, SIVP and Freelance, or the value itself; the value is kept whenever its upper-cased form holds none of the keywords |
| MLDataCleaning.NormaliseContractPriority | job_scraper/pipelines.py:152-161 | the keywords are tested on the upper-cased value in the order CDI, CDD, STAGE or PFE, SIVP, FREELANCE: each label results exactly when its own keyword occurs and no earlier one does |
| MLDataCleaning.LabelsAreFixed | job_scraper/pipelines.py:152-161 | each of the five labels is its own canonical form under the priority order |
| MLDataCleaning.ContractUnchangedIff | job_scraper/pipelines.py:150-161 | a contract type is left as it is exactly when it is already a label or holds no keyword |
| MLDataCleaning.NormaliseContractIdempotent | job_scraper/pipelines.py:150-161 | canonicalising a contract type twice is the same as once |
| MLDataCleaning.ProcessKeepsOtherFields | job_scraper/pipelines.py:116-170 | process_item never changes posted_date, source_website, job_url or scraped_at |
| MLDataCleaning.ProcessKeys | job_scraper/pipelines.py:116-170 | process_item removes no field and adds at most salary |
| MLDataCleaning.ProcessCleansText | job_scraper/pipelines.py:120-127 | after process_item, title, company, sector and description are cleaned when they were set and non-empty, and unchanged otherwise |
| MLDataCleaning.ProcessLocation | job_scraper/pipelines.py:120-147 | the location after process_item is the cleaned location, canonicalised; an empty or unset location is unchanged |
| MLDataCleaning.ProcessContract | job_scraper/pipelines.py:120-161 | the contract type after process_item is the cleaned value, canonicalised; an empty or unset one is unchanged |
| MLDataCleaning.ProcessSalary | job_scraper/pipelines.py:164-168 | a salary that is set and non-empty is never overwritten; otherwise the salary found in the cleaned description, if one is found, is written, and the salary is otherwise unchanged |
| MLPipeline.ProcessItem | job_scraper/pipelines.py:116-170 | process_item rewrites the item in place to exactly `ProcessSpec` of its old fields |
| MLPipeline.CleanTextFields | job_scraper/pipelines.py:120-127 | the loop over the six text fields leaves the item equal to `CleanFields` of its old fields |
| MLPipeline.CleanTextField | job_scraper/pipelines.py:121-127 | one turn of the cleanup loop: a field that is set and non-empty is collapsed, its unwanted characters deleted and the result stripped, in place; any other field is left as it is |
| MLPipeline.NormaliseLocationField | job_scraper/pipelines.py:130-147 | the `for`/`break` scan of location_map leaves the item equal to `WithLocation` of its old fields |
| MLPipeline.NormaliseContractField | job_scraper/pipelines.py:150-161 | the keyword tests leave the item equal to `WithContract` of its old fields |
| MLPipeline.ExtractSalaryField | job_scraper/pipelines.py:164-168 | the salary step leaves the item equal to `WithSalary` of its old fields |
| JsonWriter.DocumentEmpty | job_scraper/pipelines.py:87-94 | with no items the file holds "[]" |
| JsonWriter.DocumentSingle | job_scraper/pipelines.py:96-103 | a single item is written with no separator |
| JsonWriter.DocumentSnoc | job_scraper/pipelines.py:97-103 | each item after the first adds ",\n" and its dump before the closing bracket |
| JsonWriter.DocumentStartsWithFirst | job_scraper/pipelines.py:89-103 | no separator precedes the first item: the file opens with "[" and the first dump |
| JsonWriter.JsonWriterPipeline.OpenSpider | job_scraper/pipelines.py:87-90 | open_spider starts a fresh buffer holding "[" and sets the first-item flag |
| JsonWriter.JsonWriterPipeline.ProcessItem | job_scraper/pipelines.py:96-104 | process_item appends a ",\n" separator to the buffer unless this is the first item, then the item's dump |
| JsonWriter.JsonWriterPipeline.CloseSpider | job_scraper/pipelines.py:92-94 | close_spider leaves the buffer equal to "[" + the dumps joined by ",\n" + "]" |
| JsonWriter.WriteAll | job_scraper/pipelines.py:87-104 | opening, processing n items and closing gives "[" + the dumps joined by ",\n" + "]" |
| Keejob.SplitOn | job_scraper/spiders/keejob.py:145-146 | `str.split('•')` returns at least one piece, and at least two exactly when the text contains '•' |
| Keejob.SplitOnRejoin | job_scraper/spiders/keejob.py:145-146 | joining the pieces with '•' gives back the text |
| Keejob.SplitOnPieces | job_scraper/spiders/keejob.py:145-146 | no piece contains '•' |
| Keejob.SplitOnFirst | job_scraper/spiders/keejob.py:145-146 | the first piece is the text before the first '•' and the rest is the split of what follows it |
| Keejob.BottomLineLocation | job_scraper/spiders/keejob.py:145 | with a '•' in the bottom line, the location is the stripped text before the first '•' |
| Keejob.BottomLineDate | job_scraper/spiders/keejob.py:146 | with a '•' in the bottom line, posted_date is the stripped text between the first '•' and the second '•', or the end of the text |
| Keejob.BottomLineWithoutBullet | job_scraper/spiders/keejob.py:145-149 | with no '•', or no bottom line at all, the location is "Tunisia" and posted_date is today's date |
| Keejob.ExtractSkips | job_scraper/spiders/keejob.py:108-113 | a card yields fields exactly when it has a title element |
| Keejob.ExtractTags | job_scraper/spiders/keejob.py:124-129 | the first tag's stripped text is the sector; the second tag's is the contract type when there are two tags; with one tag the contract type is None, and with no tags neither field is set |
| Keejob.ExtractConstants | job_scraper/spiders/keejob.py:152-159 | salary is None, source_website is "keejob.com", and job_url is the link's href or, when the card has no link, the page URL |
| Keejob.Tidy | job_scraper/spiders/keejob.py:184 | the trailing `.strip()` is redundant: the value is `' '.join(s.split())` |
| Keejob.WithDefaultsSpec | job_scraper/spiders/keejob.py:191-196 | the defaults add company, location and description; each is filled with its placeholder only when empty or unset, and every other field is unchanged |
| Keejob.CollapsedSpec | job_scraper/spiders/keejob.py:182-184 | the loop over item.fields keeps the set of fields and collapses every value |
| Keejob.CleanDropsIff | job_scraper/spiders/keejob.py:182-188 | clean_item returns None exactly when title is unset or whitespace only |
| Keejob.CleanTitle | job_scraper/spiders/keejob.py:182-188 | a kept item's title is its collapsed title, which is non-empty |
| Keejob.CleanDefaults | job_scraper/spiders/keejob.py:191-196 | on a kept item, company, location and description hold their collapsed value when it is non-empty, and their placeholder otherwise |
| Keejob.CleanOthers | job_scraper/spiders/keejob.py:182-184 | every other field of a kept item is its collapsed value, or stays unset |
| Keejob.CleanKeys | job_scraper/spiders/keejob.py:179-198 | a kept item has exactly its old fields plus company, location and description |
| Keejob.CleanNormalised | job_scraper/spiders/keejob.py:179-198 | on a kept item, title, company, location and description are non-empty, and every field has no whitespace at either end and no whitespace run |
| Keejob.CleanIdempotent | job_scraper/spiders/keejob.py:179-198 | cleaning a kept item again gives the same item |
| Keejob.ArticleItemKept | job_scraper/spiders/keejob.py:108-164 | a card yields an item exactly when it has a title element with some non-whitespace text |
| Keejob.ArticleItemConstants | job_scraper/spiders/keejob.py:152-162 | every yielded item has no salary and source_website "keejob.com"; job_url is the collapsed href or the collapsed page URL |
| Keejob.PageItemsSpec | job_scraper/spiders/keejob.py:103-168 | a page yields at most one item per card, each with a non-empty title and the keejob constants |
| Keejob.CleanItem | job_scraper/spiders/keejob.py:179-198 | the method reports that the item is kept exactly when `CleanSpec` keeps it, and then leaves the item equal to the cleaned fields |
| Keejob.ExtractFields | job_scraper/spiders/keejob.py:105-159 | the field-by-field assignments give a fresh item holding `Extract` of the card; nothing results when the card has no title |
| Keejob.ParseArticle | job_scraper/spiders/keejob.py:104-168 | one card, extracted and cleaned, gives its `ArticleItem`, or nothing when it is skipped or dropped |
| Keejob.PageUrlNumber | job_scraper/spiders/keejob.py:173 | a page URL is the listing prefix followed by the decimal digits of the page number |
| Keejob.StartIsPageOne | job_scraper/spiders/keejob.py:21 | the start URL is the URL of page 1 |
| Keejob.KeejobSpider.constructor | job_scraper/spiders/keejob.py:30-35 | the counter starts at 1 and max_pages is taken as given |
| Keejob.KeejobSpider.NextPage | job_scraper/spiders/keejob.py:171-177 | a next request is issued exactly when current_page < max_pages; the counter then rises by one and the URL names the new page; the counter never exceeds max(1, max_pages) |
| Keejob.KeejobSpider.Parse | job_scraper/spiders/keejob.py:58-177 | parse yields the page's items in card order, then takes the pagination step |
| Keejob.CrawlPages | job_scraper/spiders/keejob.py:171-177 | a whole crawl requests pages 1 to max(1, max_pages), in order |
| Tanitjobs.DetailRequestsSound | job_scraper/spiders/tanitjobs.py:28-45 | every detail request that parse yields follows a listing whose link is non-empty, and there are no more requests than listings |
| Tanitjobs.DetailRequestsComplete | job_scraper/spiders/tanitjobs.py:28-45 | every listing with a non-empty link is followed |
| Tanitjobs.Parse | job_scraper/spiders/tanitjobs.py:19-51 | the loop over the listings yields the detail requests, then the next page when there is one |
| Tanitjobs.Or | job_scraper/spiders/tanitjobs.py:60-82 | `a or b` is one of its operands, it is `a` whenever `a` is truthy, and it is truthy exactly when either operand is |
| Tanitjobs.PiecesSpec | job_scraper/spiders/tanitjobs.py:73 | the comprehension keeps at most one piece per part, and each piece is non-empty and stripped |
| Tanitjobs.PiecesSingle | job_scraper/spiders/tanitjobs.py:73 | a part contributes its stripped text exactly when that is non-empty |
| Tanitjobs.PiecesAppend | job_scraper/spiders/tanitjobs.py:73 | the comprehension runs over the parts in order: the pieces of two runs of parts, one after the other, are the pieces of each |
| Tanitjobs.PiecesEmptyIff | job_scraper/spiders/tanitjobs.py:73 | no piece is kept exactly when every part is whitespace |
| Tanitjobs.DescriptionSpec | job_scraper/spiders/tanitjobs.py:72-73 | the final `.strip()` changes nothing: the description is the kept pieces joined by single spaces, and it is empty exactly when every part is whitespace |
| Tanitjobs.Squeeze | job_scraper/spiders/tanitjobs.py:100-102 | a stripped and collapsed value is normalised, and empty exactly when the value was all whitespace |
| Tanitjobs.DateOf | job_scraper/spiders/tanitjobs.py:109-111 | the rewritten posting date is either the text itself or a match of the date form |
| Tanitjobs.DateOfSpec | job_scraper/spiders/tanitjobs.py:105-111 | posted_date becomes the leftmost substring of the date form, or is kept when it holds none |
| Tanitjobs.CleanGet | job_scraper/spiders/tanitjobs.py:92-125 | each field after clean_item is the date of, the default for, or simply the stripped and collapsed value of that field |
| Tanitjobs.CleanDefaults | job_scraper/spiders/tanitjobs.py:113-121 | title, company, location and description hold their cleaned value when it is non-empty, and "N/A", "N/A", "Tunisia" and "No description available" otherwise |
| Tanitjobs.CleanPostedDate | job_scraper/spiders/tanitjobs.py:105-123 | posted_date is the leftmost date in the cleaned value, or the cleaned value when it holds no date, or today's date when it is empty |
| Tanitjobs.CleanDateFromRaw | job_scraper/spiders/tanitjobs.py:105-111 | an extracted posting date is of the date form and is a substring of the value as scraped |
| Tanitjobs.CleanNoDefault | job_scraper/spiders/tanitjobs.py:97-123 | sector, salary, contract_type and the other fields are never defaulted: an empty or unset one stays so, and a set one is only stripped and collapsed |
| Tanitjobs.CleanKeys | job_scraper/spiders/tanitjobs.py:92-125 | clean_item never drops an item and adds exactly title, company, location, description and posted_date |
| Tanitjobs.CleanNormalised | job_scraper/spiders/tanitjobs.py:92-125 | afterwards the five defaulted fields are non-empty and every field has no surrounding whitespace and no whitespace run |
| Tanitjobs.DetailConstants | job_scraper/spiders/tanitjobs.py:84-85 | source_website is "tanitjobs.com"; job_url is the response URL, collapsed, which leaves a URL without whitespace unchanged |
| Tanitjobs.DetailTitle | job_scraper/spiders/tanitjobs.py:60 | the title is the meta title when that is non-empty and the page title otherwise, then cleaned, or "N/A"; a whitespace-only meta title hides the page title |
| Tanitjobs.DetailPostedDate | job_scraper/spiders/tanitjobs.py:82 | posted_date prefers the meta date to the page date, and is then reduced to its leftmost date, or set to today's date when it is empty |
| Tanitjobs.DetailDescription | job_scraper/spiders/tanitjobs.py:72-73 | the description is the non-blank parts joined by spaces and collapsed, or the placeholder when every part is whitespace |
| Tanitjobs.SqueezeFields | job_scraper/spiders/tanitjobs.py:97-102 | the loop over item.fields leaves each field that is set and non-empty stripped and collapsed |
| Tanitjobs.ExtractDate | job_scraper/spiders/tanitjobs.py:105-111 | the date step leaves the item equal to `WithDate` of its old fields |
| Tanitjobs.FillDefaults | job_scraper/spiders/tanitjobs.py:113-123 | the five defaults leave the item equal to `WithDefaults` of its old fields |
| Tanitjobs.CleanItem | job_scraper/spiders/tanitjobs.py:92-125 | clean_item rewrites the item in place to exactly `CleanSpec` of its old fields |
| Tanitjobs.ParseJobDetails | job_scraper/spiders/tanitjobs.py:53-90 | a detail page gives a fresh item holding the cleaned fields of that page |

## Left out

- Character classes are approximated:
  - whitespace is Python's `str.isspace` set, written out;
  - `\d` covers the ASCII and Arabic-Indic digits;
  - `\w` covers ASCII, Latin-1 alphanumerics, and characters above Latin-1 outside the whitespace, combining-mark and punctuation blocks;
  - `lower()`/`upper()` map ASCII and Latin-1 letters one to one and leave everything else alone.

  Full Unicode tables and case mappings that change length (such as 'ß') are not modelled.
- Every field value is a string or absent. The `isinstance(item[field], str)` tests are therefore always true, and a non-string value cannot arise.
- A field set to None and a field that was never set are the same: both are absent from the map. No member can tell the two apart. The source does tell them apart when it writes an item: `json.dumps(dict(item))` (job_scraper/pipelines.py:102) writes `"salary": null` for the explicit None of job_scraper/spiders/keejob.py:158, and likewise for the None values set at job_scraper/spiders/keejob.py:127-132 and by the `.get()` calls of the Tanitjobs spider, while an unset field is left out of the JSON. The opaque `dumps` of the model sees only the map, so these `null` entries are not modelled.
- `job_scraper/items.py` is not part of this model. The field list and its order come from the jobs table (job_scraper/pipelines.py:25-38). The order has no effect, because each field is rewritten independently.
- File I/O is left out. `open('jobs.json')`, the writes and `close()` in `JsonWriterPipeline` are a string buffer in the model.
- `json.dumps` is an opaque function, and its output is never inspected.
- Selenium is left out:
  - the driver setup;
  - `time.sleep`;
  - the scroll loop (job_scraper/spiders/keejob.py:77-97);
  - the timeout that ends `parse` early (job_scraper/spiders/keejob.py:68-75).

  `parse` starts from the list of cards found on the page.
- The CSS selectors, `response.follow` and `response.urljoin` are not modelled. Their results are inputs: an element's text is an `Option<string>`, and urljoin is a function parameter. A `DetailPage` holds every value `parse_job_details` reads.
- The exception handlers around the element lookups are modelled as missing elements (`None`):
  - the tags handler at job_scraper/spiders/keejob.py:130-132;
  - the per-card handler at job_scraper/spiders/keejob.py:166-168.

  A lookup that fails in some other way is not modelled.
- Logging is left out.
- SalaryPattern.EqualsIgnoreCase: `re.IGNORECASE` also pairs characters that are not simple case pairs. Examples are 'ſ' with 's', 'ı' with 'i', and the Kelvin sign with 'k'. The model compares through `Lower` only, so a unit spelled with such a character matches in Python but not in the model.
- Text.IsWordChar: above Latin-1, `\w` is approximated by block. The combining diacritical marks (U+0300 to U+036F), whitespace and the punctuation blocks U+2000 to U+2BFF and U+3000 to U+303F are excluded. Marks and punctuation of other scripts still count as word characters, and Python would delete them.
- Keejob.KeejobSpider.constructor: the `int(max_pages)` conversion of a command-line string and its default of 80 are not modelled. max_pages is an integer parameter.
- The SQLite and CSV pipelines, `settings.py`, the backend and the frontend are outside the ingestion-side normalisation and are not modelled.
- MLDataCleaning.CleanTextSpec: after whitespace is collapsed, deleting a character that sat between two spaces leaves a double space. The cleaned text can therefore hold a whitespace run. This is modelled as written, so the contract does not claim that cleaned text is collapsed.
- Tanitjobs.DetailConstants: job_url is the response URL only up to the whitespace cleanup of clean_item. The lemma states the exact value and the case where the two agree.
