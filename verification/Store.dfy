/** The metadata file with its atomic replacement. */
module Store {
  import opened Faults
  import opened Metadata

  class MetadataStore {
    var document: Document

    constructor (document: Document)
      ensures this.document == document
    {
      this.document := document;
    }

    /** The end of a write transaction: one atomic file replacement, or none if nothing changed. */
    method Commit(next: Document, calm: bool) returns (o: Outcome)
      modifies this
      ensures document == old(document) || document == next
      ensures o == Done ==> document == next
      ensures calm ==> o == Done
    {
      if next == document {
        o := Attempt(calm);
        return;
      }
      var f := Draw(calm);
      if f.Published() { document := next; }
      return f.Ending();
    }
  }
}
