/** The key router, `SiteDeployer.extractTargetPagesFromKeys`: the page tokens named by
    dotted content keys. */
module KeyRouter {
  import opened Wrappers
  import opened Text
  import opened DeployerTypes

  /** The target token of a dotted key: its first segment, lower-cased. */
  function Token(key: string): string
  {
    LowerStr(FirstSegment(key))
  }

  /** `extractTargetPagesFromKeys()`: the tokens of every content key that contains a '.';
      nothing when no wording is loaded. */
  function TargetPages(data: Option<WordingData>): set<string>
  {
    match data
    case None => {}
    case Some(d) => set k | k in d.content && '.' in k :: Token(k)
  }

  /** A token belongs to the set exactly when some dotted key has it as its lower-cased prefix
      before the first '.'; no token contains a '.'. */
  lemma TargetPagesSpec(d: WordingData, t: string)
    ensures t in TargetPages(Some(d)) <==>
      exists k :: k in d.content && '.' in k && |FirstSegment(k)| < |k| && k[|FirstSegment(k)|] == '.'
                 && t == LowerStr(k[..|FirstSegment(k)|])
    ensures t in TargetPages(Some(d)) ==> '.' !in t
  {
    if t in TargetPages(Some(d)) {
      var k :| k in d.content && '.' in k && t == Token(k);
      FirstSegmentSpec(k);
      LowerStrKeeps(FirstSegment(k));
    }
    if exists k :: k in d.content && '.' in k && |FirstSegment(k)| < |k| && k[|FirstSegment(k)|] == '.'
                 && t == LowerStr(k[..|FirstSegment(k)|]) {
      var k :| k in d.content && '.' in k && |FirstSegment(k)| < |k| && k[|FirstSegment(k)|] == '.'
                 && t == LowerStr(k[..|FirstSegment(k)|]);
      FirstSegmentSpec(k);
      assert t == Token(k);
    }
  }

  /** Single-page mode: the set is empty exactly when no content key contains a '.'. */
  lemma TargetPagesEmptyIff(d: WordingData)
    ensures TargetPages(Some(d)) == {} <==> forall k :: k in d.content ==> '.' !in k
  {
    if k :| k in d.content && '.' in k {
      assert Token(k) in TargetPages(Some(d));
    }
  }

  /** Nothing loaded gives no targets. */
  lemma TargetPagesUnloaded()
    ensures TargetPages(None) == {}
  {
  }
}
