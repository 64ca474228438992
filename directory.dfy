/**
 * The translation directory the scripts work in: file names and their
 * contents, with reading, writing and copying always succeeding, and the
 * naming rule from a PO catalogue to its MO catalogue.
 */
module Directory {
  import opened PhpStrings

  /** `str_replace('.po', '.mo', $po_file)`. */
  function MoName(po: string): string
  {
    ReplaceAll(po, ".po", ".mo")
  }

  /** A name that contains ".po" only as its suffix gets the suffix ".mo" and stays otherwise the same. */
  lemma MoNameSuffix(b: string)
    requires forall i: nat :: i < |b| ==> !OccursAt(b + ".po", ".po", i)
    ensures MoName(b + ".po") == b + ".mo"
  {
    ReplaceOnlyAtEnd(b, ".po", ".mo");
  }

  /** A directory: file names and contents. */
  type Files = map<string, string>
}
