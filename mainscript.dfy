/** main.py repeats app.py's extraction logic line for line; the one
    difference in it is match_icon's default threshold, 0.5 instead of 0.4.
    Its only call site passes 0.4, so the decision is app.py's. */
module MainScript {
  import Pipeline

  /** main.py's match_icon, default threshold 0.5. */
  function MatchIcon(maxVal: real, thresh: real := 0.5): bool {
    maxVal >= thresh
  }

  /** With the 0.4 that process_image passes, main.py decides as app.py
      does, for every score. */
  lemma CallSiteAgrees(v: real)
    ensures MatchIcon(v, 0.4) == Pipeline.MatchIcon(v)
  {
  }

  /** A score of exactly 0.4 makes the left side the attacker at the call
      site; relying on main.py's default would not. */
  lemma DefaultWouldDiffer()
    ensures MatchIcon(0.4, 0.4) && !MatchIcon(0.4)
  {
  }
}
