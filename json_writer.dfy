/**
 * JsonWriterPipeline: the spider's items written, as they arrive, into one
 * JSON array. The output file is a character buffer and json.dumps (with
 * indentation, non-ASCII kept) is a function the writer is given.
 */
module JsonWriter {
  import opened Text
  import opened Items

  /** The dumps of the items, in order. */
  function Rendered(dumps: Values -> string, items: seq<Values>): (r: seq<string>)
    ensures |r| == |items| && forall i :: 0 <= i < |items| ==> r[i] == dumps(items[i])
  {
    seq(|items|, i requires 0 <= i < |items| => dumps(items[i]))
  }

  /** The text of the file after open, the items and close. */
  function Document(dumps: Values -> string, items: seq<Values>): string {
    "[" + Join(",\n", Rendered(dumps, items)) + "]"
  }

  lemma RenderedSnoc(dumps: Values -> string, items: seq<Values>, x: Values)
    ensures Rendered(dumps, items + [x]) == Rendered(dumps, items) + [dumps(x)]
  {
  }

  /** With no items the file holds an empty array. */
  lemma DocumentEmpty(dumps: Values -> string)
    ensures Document(dumps, []) == "[]"
  {
    assert Rendered(dumps, []) == [];
  }

  /** A single item is written without any separator. */
  lemma DocumentSingle(dumps: Values -> string, x: Values)
    ensures Document(dumps, [x]) == "[" + dumps(x) + "]"
  {
    assert Rendered(dumps, [x]) == [dumps(x)];
  }

  /** Each further item adds ",\n" and its dump before the closing bracket. */
  lemma DocumentSnoc(dumps: Values -> string, items: seq<Values>, x: Values)
    requires items != []
    ensures Document(dumps, items + [x]) ==
              "[" + Join(",\n", Rendered(dumps, items)) + ",\n" + dumps(x) + "]"
  {
    RenderedSnoc(dumps, items, x);
    JoinSnoc(",\n", Rendered(dumps, items), dumps(x));
  }

  /** No separator precedes the first item: the file opens with "[" and the
      first item's dump. */
  lemma {:induction false} DocumentStartsWithFirst(dumps: Values -> string, items: seq<Values>)
    requires items != []
    ensures var d := Document(dumps, items);
            |d| >= |dumps(items[0])| + 2 && d[..1 + |dumps(items[0])|] == "[" + dumps(items[0])
    decreases |items|
  {
    var x := dumps(items[0]);
    var r := Rendered(dumps, items);
    if |items| == 1 {
      DocumentSingle(dumps, items[0]);
      assert items == [items[0]];
    } else {
      assert r == [x] + r[1..];
      JoinCons(",\n", x, r[1..]);
      assert Document(dumps, items) == "[" + x + (",\n" + Join(",\n", r[1..]) + "]");
    }
  }

  class JsonWriterPipeline {
    /** json.dumps(dict(item), ensure_ascii=False, indent=2) */
    const dumps: Values -> string
    /** The text written to jobs.json so far. */
    var file: string
    var firstItem: bool
    /** The items processed since open_spider. */
    ghost var written: seq<Values>

    /** The buffer holds "[" and the dumps written so far, separated by
        ",\n"; first_item is set exactly while nothing was written. */
    ghost predicate Valid()
      reads this
    {
      file == "[" + Join(",\n", Rendered(dumps, written)) && firstItem == (written == [])
    }

    constructor (dumps: Values -> string)
      ensures this.dumps == dumps && file == "" && written == []
    {
      this.dumps := dumps;
      file := "";
      firstItem := true;
      written := [];
    }

    /** open_spider: a fresh file that starts the array. */
    method OpenSpider()
      modifies this
      ensures file == "[" && firstItem && written == [] && Valid()
    {
      file := "[";
      firstItem := true;
      written := [];
      assert Rendered(dumps, []) == [];
    }

    /** process_item: a separator before every item but the first, then the
        item's dump; the item itself passes through unchanged. */
    method ProcessItem(item: JobItem)
      requires Valid()
      modifies this
      ensures written == old(written) + [item.fields]
      ensures file == old(file) + (if old(written) == [] then "" else ",\n") + dumps(item.fields)
      ensures Valid()
    {
      if !firstItem {
        file := file + ",\n";
      } else {
        firstItem := false;
      }
      RenderedSnoc(dumps, written, item.fields);
      if written != [] {
        JoinSnoc(",\n", Rendered(dumps, written), dumps(item.fields));
      } else {
        assert Rendered(dumps, [item.fields]) == [dumps(item.fields)];
      }
      file := file + dumps(item.fields);
      written := written + [item.fields];
    }

    /** close_spider: the closing bracket completes the document. */
    method CloseSpider()
      requires Valid()
      modifies this
      ensures file == Document(dumps, written) && written == old(written)
    {
      file := file + "]";
    }
  }

  /** One crawl through the writer: open, each item in order, close. The
      file then holds exactly the document of the items. */
  method WriteAll(dumps: Values -> string, items: seq<Values>) returns (file: string)
    ensures file == Document(dumps, items)
  {
    var writer := new JsonWriterPipeline(dumps);
    writer.OpenSpider();
    var n := 0;
    while n < |items|
      invariant 0 <= n <= |items|
      invariant writer.Valid() && writer.dumps == dumps && writer.written == items[..n]
    {
      var item := new JobItem();
      item.fields := items[n];
      writer.ProcessItem(item);
      assert items[..n + 1] == items[..n] + [items[n]];
      n := n + 1;
    }
    writer.CloseSpider();
    assert items[..n] == items;
    file := writer.file;
  }
}
