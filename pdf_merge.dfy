/** `_merge_pdfs`: the pages of the cover, the scorecard and the narrative are
    appended to one writer in that order. Parsing a PDF into pages and
    serialising the writer are library calls and are parameters. */
module PdfMerge {
  import opened Wrappers
  import opened Values

  /** A page as the PDF library hands it over; its content is not inspected. */
  datatype Page = Page(id: int)

  /** The writer: the pages added so far, in order. */
  class PdfWriter {
    var pages: seq<Page>

    constructor ()
      ensures pages == []
    {
      pages := [];
    }

    /** `writer.add_page(p)` */
    method AddPage(p: Page)
      modifies this
      ensures pages == old(pages) + [p]
    {
      pages := pages + [p];
    }
  }

  /** `for p in reader.pages: writer.add_page(p)` */
  method AddPages(writer: PdfWriter, ps: seq<Page>)
    modifies writer
    ensures writer.pages == old(writer.pages) + ps
  {
    for i := 0 to |ps|
      invariant writer.pages == old(writer.pages) + ps[..i]
    {
      writer.AddPage(ps[i]);
      assert ps[..i + 1] == ps[..i] + [ps[i]];
    }
    assert ps[..|ps|] == ps;
  }

  /** `if b:` on an optional byte string: present and non-empty. */
  predicate Given(b: Option<Bytes>) {
    b.Some? && |b.value| > 0
  }

  /** The pages an optional input contributes: none when it is not given. */
  function OptionalPages(b: Option<Bytes>, read: Bytes -> Result<seq<Page>, string>): Result<seq<Page>, string> {
    if Given(b) then read(b.value) else Success([])
  }

  /** The merged page sequence, or the error of the first input that does
      not parse. */
  function Merged(cover: Option<Bytes>, scorecard: Bytes, narrative: Option<Bytes>,
                  read: Bytes -> Result<seq<Page>, string>): Result<seq<Page>, string>
  {
    var c :- OptionalPages(cover, read);
    var s :- read(scorecard);
    var n :- OptionalPages(narrative, read);
    Success(c + s + n)
  }

  /** The merged document's bytes. */
  function MergedBytes(cover: Option<Bytes>, scorecard: Bytes, narrative: Option<Bytes>,
                       read: Bytes -> Result<seq<Page>, string>, write: seq<Page> -> Bytes): Result<Bytes, string>
  {
    var m :- Merged(cover, scorecard, narrative, read);
    Success(write(m))
  }

  method MergePdfs(cover: Option<Bytes>, scorecard: Bytes, narrative: Option<Bytes>,
                   read: Bytes -> Result<seq<Page>, string>, write: seq<Page> -> Bytes)
    returns (r: Result<Bytes, string>)
    ensures r == MergedBytes(cover, scorecard, narrative, read, write)
  {
    var writer := new PdfWriter();
    if cover.Some? && |cover.value| > 0 {
      var coverPages := read(cover.value);
      if coverPages.Failure? {
        return Failure(coverPages.error);
      }
      AddPages(writer, coverPages.value);
    }
    assert writer.pages == OptionalPages(cover, read).value;
    var scorePages := read(scorecard);
    if scorePages.Failure? {
      return Failure(scorePages.error);
    }
    AddPages(writer, scorePages.value);
    if narrative.Some? && |narrative.value| > 0 {
      var narrativePages := read(narrative.value);
      if narrativePages.Failure? {
        return Failure(narrativePages.error);
      }
      AddPages(writer, narrativePages.value);
    }
    assert writer.pages == OptionalPages(cover, read).value + scorePages.value + OptionalPages(narrative, read).value;
    r := Success(write(writer.pages));
  }

  /** Cover pages first, then every scorecard page, then the narrative pages;
      nothing reordered, dropped or repeated. */
  lemma MergedOrder(cover: Option<Bytes>, scorecard: Bytes, narrative: Option<Bytes>,
                    read: Bytes -> Result<seq<Page>, string>)
    requires Merged(cover, scorecard, narrative, read).Success?
    ensures var m := Merged(cover, scorecard, narrative, read).value;
      var c := OptionalPages(cover, read).value;
      var s := read(scorecard).value;
      var n := OptionalPages(narrative, read).value;
      && |m| == |c| + |s| + |n|
      && (forall i :: 0 <= i < |c| ==> m[i] == c[i])
      && (forall i :: 0 <= i < |s| ==> m[|c| + i] == s[i])
      && (forall i :: 0 <= i < |n| ==> m[|c| + |s| + i] == n[i])
  {
  }

  /** The merge succeeds exactly when every given input parses; otherwise it
      reports the error of the first one that does not. */
  lemma MergedFailure(cover: Option<Bytes>, scorecard: Bytes, narrative: Option<Bytes>,
                      read: Bytes -> Result<seq<Page>, string>)
    ensures Merged(cover, scorecard, narrative, read).Success?
        <==> OptionalPages(cover, read).Success? && read(scorecard).Success? && OptionalPages(narrative, read).Success?
    ensures OptionalPages(cover, read).Failure? ==>
              Merged(cover, scorecard, narrative, read) == Failure(OptionalPages(cover, read).error)
    ensures OptionalPages(cover, read).Success? && read(scorecard).Failure? ==>
              Merged(cover, scorecard, narrative, read) == Failure(read(scorecard).error)
    ensures OptionalPages(cover, read).Success? && read(scorecard).Success? && OptionalPages(narrative, read).Failure? ==>
              Merged(cover, scorecard, narrative, read) == Failure(OptionalPages(narrative, read).error)
  {
  }

  /** An empty optional input counts as absent: its bytes are never parsed. */
  lemma EmptyInputSkipped(scorecard: Bytes, narrative: Option<Bytes>, read: Bytes -> Result<seq<Page>, string>)
    ensures Merged(Some([]), scorecard, narrative, read) == Merged(None, scorecard, narrative, read)
    ensures Merged(None, scorecard, Some([]), read) == Merged(None, scorecard, None, read)
  {
  }
}
