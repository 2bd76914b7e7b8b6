/** The indentation finding of main.py:89-94 on one source root listing two
    PDF files and a text file, "<a>.pdf", "<b>.pdf" and "<n>.txt" (for
    instance "a.pdf", "b.pdf" and "notes.txt"), with only ".pdf" allowed. */
module Inbox {
  import opened Outcomes
  import opened Fs
  import opened Records
  import opened Run

  function PdfFile(dir: Path, stem: string): SourceFile {
    SourceFile(dir, Entry(stem + ".pdf", false, []))
  }

  function TxtFile(dir: Path, stem: string): SourceFile {
    SourceFile(dir, Entry(stem + ".txt", false, []))
  }

  /** The source root `dir`, listing "<a>.pdf", "<b>.pdf" and "<n>.txt". */
  function InboxRoot(dir: Path, a: string, b: string, n: string): SourceRoot {
    SourceRoot(dir, true, [PdfFile(dir, a).entry, PdfFile(dir, b).entry, TxtFile(dir, n).entry])
  }

  /** As written, the run over that root makes a single record, that of the
      text file, and never handles the two PDF files: whatever the per-file
      step and whatever extensions are allowed. */
  lemma AsWrittenDropsFiles(process: Processor, dir: Path, a: string, b: string, n: string)
    ensures RunAsWritten(process, [InboxRoot(dir, a, b, n)]) ==
              Ok(RunState([process(0, TxtFile(dir, n))], Some(TxtFile(dir, n))))
  {
    var root := InboxRoot(dir, a, b, n);
    var roots := [root];
    assert roots[..|roots| - 1] == [];
    assert RunAsWritten(process, []) == Ok(RunState([], None));
    assert RunAsWritten(process, roots) == VisitRoot(process, RunState([], None), root);
    assert [] + [process(0, TxtFile(dir, n))] == [process(0, TxtFile(dir, n))];
  }

  /** The intended run over the same root, with only ".pdf" allowed, records
      the two PDF files, in listing order, and not the text file. */
  lemma IntendedKeepsFiles(process: Processor, dir: Path, a: string, b: string, n: string)
    requires a != [] && b != [] && n != []
    ensures RunIntended(process, PdfOnly, [InboxRoot(dir, a, b, n)]) ==
              [process(0, PdfFile(dir, a)), process(1, PdfFile(dir, b))]
  {
    var root := InboxRoot(dir, a, b, n);
    InboxListing(process, dir, a, b, n);
    var roots := [root];
    assert roots[..|roots| - 1] == [];
  }

  lemma InboxListing(process: Processor, dir: Path, a: string, b: string, n: string)
    requires a != [] && b != [] && n != []
    ensures ListingRecords(process, PdfOnly, dir, [], InboxRoot(dir, a, b, n).listing) ==
              [process(0, PdfFile(dir, a)), process(1, PdfFile(dir, b))]
  {
    PdfQualifies(a);
    PdfQualifies(b);
    TxtRejected(n);
    TwoQualifyingThenRejected(process, PdfOnly, dir,
      PdfFile(dir, a).entry, PdfFile(dir, b).entry, TxtFile(dir, n).entry);
  }

  /** A listing of two files that pass the filter and one that does not gives
      the records of the first two, numbered 0 and 1. */
  lemma TwoQualifyingThenRejected(process: Processor, allowed: set<string>, dir: Path,
                                  first: Entry, second: Entry, third: Entry)
    requires Qualifies(first, allowed) && Qualifies(second, allowed) && !Qualifies(third, allowed)
    ensures ListingRecords(process, allowed, dir, [], [first, second, third]) ==
              [process(0, SourceFile(dir, first)), process(1, SourceFile(dir, second))]
  {
    var listing := [first, second, third];
    assert listing[..0] == [];
    ListingRecordsStep(process, allowed, dir, [], listing, 0);
    ListingRecordsStep(process, allowed, dir, [], listing, 1);
    ListingRecordsStep(process, allowed, dir, [], listing, 2);
    assert listing[..3] == listing;
  }
}
