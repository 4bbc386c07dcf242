/**
 * The chapter model: a mutable chapter object (`Chapter`, with `copyFrom` and the
 * list copy) and the value a database read of it yields (`ChapterRecord`), which is
 * what the progress reconciler and the download directory naming work on.
 */
module Chapters {
  import opened Wrappers

  /** Every field of a chapter, its own and those it inherits from the source-side chapter. */
  datatype ChapterRecord = ChapterRecord(
    id: Option<int>,
    mangaId: Option<int>,
    read: bool,
    bookmark: bool,
    lastPageRead: int,
    pagesLeft: int,
    dateFetch: int,
    sourceOrder: int,
    url: string,
    name: string,
    dateUpload: int,
    chapterNumber: real,
    scanlator: Option<string>)

  /** A chapter number was parsed from the chapter's title; unparsed numbers are negative. */
  predicate IsRecognizedNumber(c: ChapterRecord) {
    c.chapterNumber >= 0.0
  }

  class Chapter {
    var id: Option<int>
    var mangaId: Option<int>
    var read: bool
    var bookmark: bool
    var lastPageRead: int
    var pagesLeft: int
    var dateFetch: int
    var sourceOrder: int
    var url: string
    var name: string
    var dateUpload: int
    var chapterNumber: real
    var scanlator: Option<string>

    function Record(): ChapterRecord
      reads this
    {
      ChapterRecord(id, mangaId, read, bookmark, lastPageRead, pagesLeft, dateFetch,
                    sourceOrder, url, name, dateUpload, chapterNumber, scanlator)
    }

    /** `Chapter.create()`: a new chapter whose number is not (yet) recognized. */
    constructor Create()
      ensures chapterNumber == -1.0
      ensures !IsRecognizedNumber(Record())
      ensures !read && !bookmark
    {
      id, mangaId := None, None;
      read, bookmark := false, false;
      lastPageRead, pagesLeft, dateFetch, sourceOrder := 0, 0, 0, 0;
      url, name, dateUpload, scanlator := "", "", 0, None;
      chapterNumber := -1.0;
    }

    /** `copyFrom(other)`: this chapter's own fields, then the source-side ones, taken from `other`. */
    method CopyFrom(other: Chapter)
      modifies this
      ensures Record() == old(other.Record())
    {
      var r := other.Record();
      id, mangaId, read, bookmark, lastPageRead, pagesLeft, dateFetch, sourceOrder,
        url, name, dateUpload, chapterNumber, scanlator :=
        r.id, r.mangaId, r.read, r.bookmark, r.lastPageRead, r.pagesLeft, r.dateFetch, r.sourceOrder,
        r.url, r.name, r.dateUpload, r.chapterNumber, r.scanlator;
    }
  }

  /** `List<Chapter>.copy()`: a fresh chapter per element, equal to it field by field. */
  method CopyList(chapters: seq<Chapter>) returns (copies: seq<Chapter>)
    ensures |copies| == |chapters|
    ensures forall i :: 0 <= i < |copies| ==> fresh(copies[i])
    ensures forall i :: 0 <= i < |copies| ==> copies[i].Record() == chapters[i].Record()
  {
    copies := [];
    var i := 0;
    while i < |chapters|
      invariant 0 <= i <= |chapters|
      invariant |copies| == i
      invariant forall k :: 0 <= k < i ==> fresh(copies[k])
      invariant forall k :: 0 <= k < i ==> copies[k].Record() == chapters[k].Record()
    {
      var c := new Chapter.Create();
      c.CopyFrom(chapters[i]);
      copies := copies + [c];
      i := i + 1;
    }
  }
}
