/**
 * The heading markers `"# "`, `"## "` and `"### "` that both markdown
 * builders test, in that order, against a stripped line.
 */
module HeadingMarkers {
  import opened Strings

  /**
   * At most one of the markers starts a line, and a marker that starts a
   * stripped line is followed by at least one more character.
   */
  lemma MarkersExclusive(t: string)
    requires t == [] || (!IsSpace(t[0]) && !IsSpace(t[|t| - 1]))
    ensures StartsWith(t, "# ") ==> |t| > 2 && !StartsWith(t, "## ") && !StartsWith(t, "### ") && !StartsWith(t, "|")
    ensures StartsWith(t, "## ") ==> |t| > 3 && !StartsWith(t, "### ") && !StartsWith(t, "|")
    ensures StartsWith(t, "### ") ==> |t| > 4 && !StartsWith(t, "|")
  {
    if StartsWith(t, "# ") {
      assert t[1] == ' ' && t[0] == '#';
    }
    if StartsWith(t, "## ") {
      assert t[2] == ' ' && t[0] == '#';
    }
    if StartsWith(t, "### ") {
      assert t[3] == ' ' && t[0] == '#';
    }
  }
}
