/** The page sequence of rentivo/pdf/merger.py: a bill's invoice followed by its receipts. */
module PdfMerge {
  import opened Wrappers

  type Blob = seq<bv8>

  datatype Page = Page(content: Blob)

  /** What a reader delivers before it stops, and whether it stopped at the end. */
  datatype Reading = Reading(pages: seq<Page>, complete: bool)

  /** The PDF and image libraries. */
  datatype Tools = Tools(read: Blob -> Reading, imageToPdf: Blob -> Option<Blob>, write: seq<Page> -> Blob)

  /** A receipt file with its content type. */
  type File = (Blob, string)

  /** The pages that a receipt contributes; one that fails contributes those before the failure. */
  function FilePages(tools: Tools, file: File): seq<Page> {
    if file.1 == "application/pdf" then tools.read(file.0).pages
    else if file.1 == "image/jpeg" || file.1 == "image/png" then
      match tools.imageToPdf(file.0)
      case Some(pdf) => tools.read(pdf).pages
      case None => []
    else []
  }

  function AllPages(tools: Tools, files: seq<File>): seq<Page> {
    if files == [] then []
    else AllPages(tools, files[..|files| - 1]) + FilePages(tools, files[|files| - 1])
  }

  function Merged(tools: Tools, invoice: Blob, files: seq<File>): Blob {
    if files == [] || !tools.read(invoice).complete then invoice
    else tools.write(tools.read(invoice).pages + AllPages(tools, files))
  }

  /** for page in reader.pages: writer.add_page(page). */
  method AddPages(writer: seq<Page>, pages: seq<Page>) returns (longer: seq<Page>)
    ensures longer == writer + pages
  {
    longer := writer;
    for i := 0 to |pages|
      invariant longer == writer + pages[..i]
    {
      longer := longer + [pages[i]];
    }
  }

  method MergeReceipts(tools: Tools, invoice: Blob, files: seq<File>) returns (merged: Blob)
    ensures merged == Merged(tools, invoice, files)
  {
    if files == [] {
      return invoice;
    }
    var reading := tools.read(invoice);
    var writer := AddPages([], reading.pages);
    if !reading.complete {
      return invoice;
    }
    for k := 0 to |files|
      invariant writer == reading.pages + AllPages(tools, files[..k])
    {
      var pages := [];
      if files[k].1 == "application/pdf" {
        pages := tools.read(files[k].0).pages;
      } else if files[k].1 == "image/jpeg" || files[k].1 == "image/png" {
        var converted := tools.imageToPdf(files[k].0);
        if converted.Some? {
          pages := tools.read(converted.value).pages;
        }
      }
      assert pages == FilePages(tools, files[k]);
      assert files[..k + 1][..k] == files[..k];
      writer := AddPages(writer, pages);
    }
    assert files[..|files|] == files;
    merged := tools.write(writer);
  }

  lemma {:induction false} AllPagesConcat(tools: Tools, a: seq<File>, b: seq<File>)
    ensures AllPages(tools, a + b) == AllPages(tools, a) + AllPages(tools, b)
  {
    if b == [] {
      assert a + b == a;
    } else {
      assert (a + b)[..|a + b| - 1] == a + b[..|b| - 1];
      AllPagesConcat(tools, a, b[..|b| - 1]);
    }
  }

  lemma PagesAround(tools: Tools, before: seq<File>, file: File, after: seq<File>)
    ensures AllPages(tools, before + [file] + after)
         == AllPages(tools, before) + FilePages(tools, file) + AllPages(tools, after)
  {
    AllPagesConcat(tools, before + [file], after);
    assert (before + [file])[..|before|] == before;
  }

  /** With a writer whose output reads back, the merged PDF of a readable invoice holds the
      invoice's pages first and then each receipt's pages, in the order of the receipts. */
  lemma MergedPages(tools: Tools, invoice: Blob, before: seq<File>, file: File, after: seq<File>)
    requires tools.read(invoice).complete
    requires forall ps: seq<Page> :: tools.read(tools.write(ps)) == Reading(ps, true)
    ensures tools.read(Merged(tools, invoice, before + [file] + after)).pages
         == tools.read(invoice).pages + (AllPages(tools, before) + FilePages(tools, file) + AllPages(tools, after))
  {
    PagesAround(tools, before, file, after);
    assert before + [file] + after != [];
  }

  // ---- What each type of file contributes ----

  /** A PDF gives its pages, a JPEG or PNG image those of its conversion if it can be converted,
      and any other file none. */
  ghost predicate Gives(tools: Tools, bytes: Blob, contentType: string, pages: seq<Page>) {
    && (contentType == "application/pdf" ==> pages == tools.read(bytes).pages)
    && (contentType in {"image/jpeg", "image/png"} ==>
          pages == if tools.imageToPdf(bytes).Some? then tools.read(tools.imageToPdf(bytes).value).pages else [])
    && (contentType !in {"application/pdf", "image/jpeg", "image/png"} ==> pages == [])
  }

  function Flatten(parts: seq<seq<Page>>): seq<Page> {
    if parts == [] then [] else parts[0] + Flatten(parts[1..])
  }

  lemma {:induction false} FlattenSnoc(parts: seq<seq<Page>>, last: seq<Page>)
    ensures Flatten(parts + [last]) == Flatten(parts) + last
  {
    if parts == [] {
      assert parts + [last] == [last] && [last][1..] == [];
    } else {
      assert (parts + [last])[1..] == parts[1..] + [last];
      FlattenSnoc(parts[1..], last);
    }
  }

  ghost predicate GivesEach(tools: Tools, files: seq<File>, parts: seq<seq<Page>>) {
    |parts| == |files| && forall i | 0 <= i < |files| :: Gives(tools, files[i].0, files[i].1, parts[i])
  }

  lemma {:induction false} PartsOf(tools: Tools, files: seq<File>) returns (parts: seq<seq<Page>>)
    ensures GivesEach(tools, files, parts) && AllPages(tools, files) == Flatten(parts)
  {
    parts := [];
    if files != [] {
      var front, last := files[..|files| - 1], files[|files| - 1];
      var before := PartsOf(tools, front);
      FlattenSnoc(before, FilePages(tools, last));
      assert Gives(tools, last.0, last.1, FilePages(tools, last));
      parts := before + [FilePages(tools, last)];
    }
  }

  /** The writer's output reads back. */
  ghost predicate ReadsBack(tools: Tools) {
    forall ps: seq<Page> :: tools.read(tools.write(ps)).pages == ps
  }

  /** The merged PDF of a readable invoice holds the invoice's pages and then what each receipt
      gives, type by type, in the order of the receipts. */
  lemma MergedShows(tools: Tools, invoice: Blob, files: seq<File>) returns (parts: seq<seq<Page>>)
    requires ReadsBack(tools) && tools.read(invoice).complete
    ensures GivesEach(tools, files, parts)
    ensures tools.read(Merged(tools, invoice, files)).pages == tools.read(invoice).pages + Flatten(parts)
  {
    parts := PartsOf(tools, files);
    if files == [] {
      assert parts == [] && Flatten(parts) == [];
    }
  }

  /** For one receipt. */
  lemma MergedOne(tools: Tools, invoice: Blob, bytes: Blob, contentType: string)
    requires ReadsBack(tools) && tools.read(invoice).complete
    ensures tools.read(Merged(tools, invoice, [(bytes, contentType)])).pages == tools.read(invoice).pages +
            (if contentType == "application/pdf" then tools.read(bytes).pages
             else if (contentType == "image/jpeg" || contentType == "image/png") && tools.imageToPdf(bytes).Some? then
               tools.read(tools.imageToPdf(bytes).value).pages
             else [])
  {
    var parts := MergedShows(tools, invoice, [(bytes, contentType)]);
    assert Gives(tools, [(bytes, contentType)][0].0, [(bytes, contentType)][0].1, parts[0]);
    assert parts == [parts[0]] && parts[1..] == [];
    assert Flatten(parts) == parts[0];
  }

  /** An invoice that cannot be read stays as it is, and so does one without receipts. */
  lemma InvoiceKept(tools: Tools, invoice: Blob, files: seq<File>)
    requires files == [] || !tools.read(invoice).complete
    ensures Merged(tools, invoice, files) == invoice
  {
  }
}
