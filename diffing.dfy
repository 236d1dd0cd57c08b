/** The diff engine, `SiteDeployer.previewChanges`, as a specification over the scanned entries
    and the content map. */
module Diffing {
  import opened Wrappers
  import opened Seqs
  import opened DeployerTypes

  /** The preview line of one scanned entry. */
  function ChangeOf(content: map<string, string>, e: ScannedElement): ChangeRecord
  {
    if e.key in content then ChangeRecord(e.key, true, Some(content[e.key]))
    else ChangeRecord(e.key, false, None)
  }

  /** The preview after the loop has seen `scanned`: `unusedKeys` starts as every content key. */
  function Diff(content: map<string, string>, scanned: seq<ScannedElement>): Preview
  {
    if scanned == [] then Preview([], [], content.Keys)
    else
      var p := Diff(content, scanned[..|scanned| - 1]);
      var e := scanned[|scanned| - 1];
      if e.key in content then
        Preview(p.changes + [ChangeOf(content, e)], p.missingKeys, p.unusedKeys - {e.key})
      else
        Preview(p.changes + [ChangeOf(content, e)], p.missingKeys + [e.key], p.unusedKeys)
  }

  /** The key of an entry that the content lacks. */
  function MissingKey(content: map<string, string>): ScannedElement -> Option<string>
  {
    (e: ScannedElement) => if e.key in content then None else Some(e.key)
  }

  function ScannedKeys(scanned: seq<ScannedElement>): set<string>
  {
    set e | e in scanned :: e.key
  }

  /** `changes` runs parallel to the scan, with a value exactly for the keys the content has;
      `missingKeys` is the ordered list of the others; `unusedKeys` is every content key that
      no entry names. */
  lemma {:induction false} DiffSpec(content: map<string, string>, scanned: seq<ScannedElement>)
    ensures |Diff(content, scanned).changes| == |scanned|
    ensures forall i :: 0 <= i < |scanned| ==>
              Diff(content, scanned).changes[i].key == scanned[i].key
              && (Diff(content, scanned).changes[i].hasValue <==> scanned[i].key in content)
              && Diff(content, scanned).changes[i].newValue
                 == (if scanned[i].key in content then Some(content[scanned[i].key]) else None)
    ensures Diff(content, scanned).missingKeys == FilterMap(scanned, MissingKey(content))
    ensures Diff(content, scanned).unusedKeys == content.Keys - ScannedKeys(scanned)
    decreases |scanned|
  {
    if scanned != [] {
      var s' := scanned[..|scanned| - 1];
      var e := scanned[|scanned| - 1];
      DiffSpec(content, s');
      assert scanned == s' + [e];
      FilterMapSnoc(s', e, MissingKey(content));
      assert ScannedKeys(scanned) == ScannedKeys(s') + {e.key};
    }
  }

  /** The number of preview lines that have a value. */
  function CountWithValue(changes: seq<ChangeRecord>): nat
  {
    Count(changes, (c: ChangeRecord) => c.hasValue)
  }

  /** Every preview line either has a value or is listed as missing. */
  lemma {:induction false} DiffCounts(content: map<string, string>, scanned: seq<ScannedElement>)
    ensures |Diff(content, scanned).changes|
            == CountWithValue(Diff(content, scanned).changes) + |Diff(content, scanned).missingKeys|
    decreases |scanned|
  {
    if scanned != [] {
      var s' := scanned[..|scanned| - 1];
      var e := scanned[|scanned| - 1];
      DiffCounts(content, s');
      CountSnoc(Diff(content, s').changes, ChangeOf(content, e), (c: ChangeRecord) => c.hasValue);
    }
  }

  /** The keys that got a value in a preview. */
  function MatchedKeys(changes: seq<ChangeRecord>): set<string>
  {
    set c | c in changes && c.hasValue :: c.key
  }

  /** The matched keys of a preview are exactly the scanned keys the content has. */
  lemma MatchedKeysOfDiff(content: map<string, string>, scanned: seq<ScannedElement>)
    ensures MatchedKeys(Diff(content, scanned).changes) == ScannedKeys(scanned) * content.Keys
  {
    DiffSpec(content, scanned);
    var changes := Diff(content, scanned).changes;
    forall k | k in MatchedKeys(changes) ensures k in ScannedKeys(scanned) * content.Keys {
      var c :| c in changes && c.hasValue && c.key == k;
      var i :| 0 <= i < |changes| && changes[i] == c;
      assert scanned[i] in scanned;
    }
    forall k | k in ScannedKeys(scanned) * content.Keys ensures k in MatchedKeys(changes) {
      var e :| e in scanned && e.key == k;
      var i :| 0 <= i < |scanned| && scanned[i] == e;
      assert changes[i] in changes;
    }
  }
}
