/** The five severity names of `analyze_logs`, most severe first, and the
    capitalized label it reports for each. */
module SeverityNames {
  import opened Strings

  /** The ranking list, most severe first. */
  const SeverityOrder: seq<string> := ["CRITICAL", "HIGH", "MEDIUM", "LOW", "UNKNOWN"]

  /** The capitalized form of each name in `SeverityOrder`, at the same position. */
  const SeverityLabels: seq<string> := ["Critical", "High", "Medium", "Low", "Unknown"]

  /** Each label is the capitalized form of the name at its position. */
  lemma {:induction false} CapitalizedName(k: nat)
    requires k < |SeverityOrder|
    ensures Capitalize(SeverityOrder[k]) == SeverityLabels[k]
  {
    var name := SeverityOrder[k];
    var l := Lower(name[1..]);
    if k == 0 {
      assert name[1..] == "RITICAL";
      assert l[0] == 'r' && l[1] == 'i' && l[2] == 't' && l[3] == 'i' && l[4] == 'c' && l[5] == 'a' && l[6] == 'l';
    } else if k == 1 {
      assert name[1..] == "IGH";
      assert l[0] == 'i' && l[1] == 'g' && l[2] == 'h';
    } else if k == 2 {
      assert name[1..] == "EDIUM";
      assert l[0] == 'e' && l[1] == 'd' && l[2] == 'i' && l[3] == 'u' && l[4] == 'm';
    } else if k == 3 {
      assert name[1..] == "OW";
      assert l[0] == 'o' && l[1] == 'w';
    } else {
      assert name[1..] == "NKNOWN";
      assert l[0] == 'n' && l[1] == 'k' && l[2] == 'n' && l[3] == 'o' && l[4] == 'w' && l[5] == 'n';
    }
  }
}
