/** The readiness cache over the trees that its fingerprints are taken from (backend/main.py). */
module ReadinessClosure {
  import opened Results
  import opened Ordering
  import P = PermissionPaths
  import opened Readiness
  import opened Fingerprints
  import T = TreeFingerprint

  type Look = (nat, string) -> Option<Info>

  /** What the readings of one call look at: the artifact root before, during and after a run of the verifier. */
  datatype Sight = Sight(closure: Look, tree: T.Node, before: (T.Node, T.Node), closureAfter: Look, after: (T.Node, T.Node))

  /** The fingerprints of a call are readings of what it looks at, and the verifier lists plain paths. */
  ghost predicate Observed(c: Call, s: Sight) {
    && (forall files :: ClosureReading(s.closure, files, c.closure(files)))
    && (forall files :: ClosureReading(s.closureAfter, files, c.closureAfter(files)))
    && T.TreeReading(s.tree, c.tree)
    && T.TreeReading(s.before.0, c.before.0) && T.TreeReading(s.before.1, c.before.1)
    && T.TreeReading(s.after.0, c.after.0) && T.TreeReading(s.after.1, c.after.1)
    && (c.run.Exited? && c.run.metadata.Some? ==> Listed(c.run.metadata.value.0))
  }

  ghost predicate ObservedRun(calls: seq<Call>, sights: seq<Sight>) {
    |calls| == |sights| && forall i :: 0 <= i < |calls| ==> Observed(calls[i], sights[i])
  }

  lemma ClosureNonempty(look: Look, files: seq<string>, r: Option<seq<Entry>>)
    requires ClosureReading(look, files, r)
    ensures r != Some([])
  {
    if r.Some? {
      var entries :| ReadAs(look, files, entries, r.value);
      InOrderNonempty(entries);
    }
  }

  lemma TreeNonempty(root: T.Node, r: seq<Entry>)
    requires T.TreeReading(root, r)
    ensures r != []
  {
    var entries :| T.Snapshot(root, entries) && r == InOrder(entries);
    assert T.Stands(root, []) && T.Entered(root, entries, []);
    InOrderNonempty(entries);
  }

  /** No fingerprint that can be read is empty. */
  lemma ObservedIsPlausible(calls: seq<Call>, sights: seq<Sight>)
    requires ObservedRun(calls, sights)
    ensures PlausibleRun(calls)
  {
    forall i | 0 <= i < |calls| ensures Plausible(calls[i]) {
      var c, s := calls[i], sights[i];
      assert Observed(c, s);
      forall p ensures c.closure(p) != Some([]) { ClosureNonempty(s.closure, p, c.closure(p)); }
      forall p ensures c.closureAfter(p) != Some([]) { ClosureNonempty(s.closureAfter, p, c.closureAfter(p)); }
      TreeNonempty(s.tree, c.tree);
      TreeNonempty(s.before.0, c.before.0);
      TreeNonempty(s.before.1, c.before.1);
      TreeNonempty(s.after.0, c.after.0);
      TreeNonempty(s.after.1, c.after.1);
    }
  }

  /** Some look then and some look now found the component of its kind with the same numbers. */
  ghost predicate SeenAlike(before: Look, now: Look, path: string, kind: P.Kind) {
    exists n, m :: Alike(before(n, path), now(m, path), kind)
  }

  predicate Alike(a: Option<Info>, b: Option<Info>, kind: P.Kind) {
    a.Some? && b.Some? && Fits(kind, a.value) && Fits(kind, b.value) && a.value.numbers == b.value.numbers
  }

  /** Two equal readings of a closure. */
  lemma EqualReadings(before: Look, now: Look, files: seq<string>, r: seq<Entry>, path: string)
    requires ClosureReading(before, files, Some(r)) && ClosureReading(now, files, Some(r))
    requires Listed(files) && path in P.ComponentsOf(files)
    ensures SeenAlike(before, now, path, P.ComponentsOf(files)[path])
  {
    var a :| ReadAs(before, files, a, r);
    var b :| ReadAs(now, files, b, r);
    InOrderInjective(a, b);
    var kind := P.ComponentsOf(files)[path];
    assert SeenAt(before, path, kind, a[path]) && SeenAt(now, path, kind, b[path]);
    var n :| LooksLike(before(n, path), path, kind, a[path]);
    var m :| LooksLike(now(m, path), path, kind, b[path]);
    assert Alike(before(n, path), now(m, path), kind);
  }

  /** What the last run accepted: listed paths, read after the verifier. */
  lemma AcceptedReading(c: Call, s: Sight)
    requires Observed(c, s) && Accepted(c)
    ensures Listed(AcceptedPaths(c)) && ClosureReading(s.closureAfter, AcceptedPaths(c), Some(AcceptedFingerprint(c)))
  {
  }

  lemma ReusedNeedsRun(calls: seq<Call>, n: nat) returns (j: nat)
    requires n < |calls| && AnswerTo(calls, n) == Reused(true)
    ensures LastRun(calls, j, n)
  {
    var k := CacheOfLastRun(calls, n);
    j := k.value;
  }

  /**
   True without the verifier: the last run accepted for the same root, and each component of the closure was
   seen then and now with the same kind and stat numbers, whatever changes the trees in between.
   */
  lemma ReusedTrueSeenAlike(calls: seq<Call>, sights: seq<Sight>, n: nat) returns (j: nat)
    requires ObservedRun(calls, sights) && n < |calls| && AnswerTo(calls, n) == Reused(true)
    ensures LastRun(calls, j, n) && Accepted(calls[j]) && calls[j].root == calls[n].root
    ensures var components := P.ComponentsOf(AcceptedPaths(calls[j]));
      forall path :: path in components ==> SeenAlike(sights[j].closureAfter, sights[n].closure, path, components[path])
  {
    j := ReusedNeedsRun(calls, n);
    ObservedIsPlausible(calls, sights);
    ReusedTrueIff(calls, n, j);
    assert Observed(calls[j], sights[j]) && Observed(calls[n], sights[n]);
    AcceptedReading(calls[j], sights[j]);
    var files := AcceptedPaths(calls[j]);
    var components := P.ComponentsOf(files);
    forall path | path in components ensures SeenAlike(sights[j].closureAfter, sights[n].closure, path, components[path]) {
      EqualReadings(sights[j].closureAfter, sights[n].closure, files, AcceptedFingerprint(calls[j]), path);
    }
  }

  /** Every component is there now as it was then. */
  ghost predicate Unchanged(before: Look, now: Look, components: map<string, P.Kind>) {
    forall path :: path in components ==> Alike(before(0, path), now(0, path), components[path])
  }

  lemma StillAlike(before: Look, now: Look, path: string, kind: P.Kind)
    requires Still(before) && Still(now) && SeenAlike(before, now, path, kind)
    ensures Alike(before(0, path), now(0, path), kind)
  {
    var n, m :| Alike(before(n, path), now(m, path), kind);
    assert before(n, path) == before(0, path) && now(m, path) == now(0, path);
  }

  lemma StillEntry(look: Look, entries: map<string, Entry>, components: map<string, P.Kind>, path: string)
    requires Still(look) && Seen(look, entries, components) && path in entries
    ensures LooksLike(look(0, path), path, components[path], entries[path])
  {
    assert SeenAt(look, path, components[path], entries[path]);
    var n :| LooksLike(look(n, path), path, components[path], entries[path]);
    assert look(n, path) == look(0, path);
  }

  lemma SameEntries(before: Look, now: Look, components: map<string, P.Kind>, a: map<string, Entry>, b: map<string, Entry>)
    requires Still(before) && Still(now) && Seen(before, a, components) && Seen(now, b, components)
    requires Unchanged(before, now, components)
    ensures a == b
  {
    forall path | path in a ensures a[path] == b[path] {
      StillEntry(before, a, components, path);
      StillEntry(now, b, components, path);
      assert Alike(before(0, path), now(0, path), components[path]);
    }
  }

  /** Of two still trees: the second reads as the first did exactly when no component changed. */
  lemma SameReadingIff(before: Look, now: Look, files: seq<string>, r: seq<Entry>, again: Option<seq<Entry>>)
    requires Still(before) && Still(now) && Listed(files)
    requires ClosureReading(before, files, Some(r)) && ClosureReading(now, files, again)
    ensures again == Some(r) <==> Unchanged(before, now, P.ComponentsOf(files))
  {
    var components := P.ComponentsOf(files);
    if again == Some(r) {
      forall path | path in components ensures Alike(before(0, path), now(0, path), components[path]) {
        EqualReadings(before, now, files, r, path);
        StillAlike(before, now, path, components[path]);
      }
    }
    if Unchanged(before, now, components) {
      forall path | path in components ensures now(0, path).Some? && Fits(components[path], now(0, path).value) {
        assert Alike(before(0, path), now(0, path), components[path]);
      }
      assert Sound(now, components);
      var a :| ReadAs(before, files, a, r);
      var b :| ReadAs(now, files, b, again.value);
      SameEntries(before, now, components, a, b);
    }
  }

  /**
   When the trees stand still during each reading, True is answered without the verifier exactly when the call
   is not forced, the last run accepted for the same root, and no component of the closure it accepted changed.
   */
  lemma ReusedTrueIffUnchanged(calls: seq<Call>, sights: seq<Sight>, n: nat, j: nat)
    requires ObservedRun(calls, sights) && n < |calls| && LastRun(calls, j, n)
    requires Still(sights[j].closureAfter) && Still(sights[n].closure)
    ensures AnswerTo(calls, n) == Reused(true) <==>
              && !calls[n].force && calls[j].root == calls[n].root && Accepted(calls[j])
              && Unchanged(sights[j].closureAfter, sights[n].closure, P.ComponentsOf(AcceptedPaths(calls[j])))
  {
    ObservedIsPlausible(calls, sights);
    ReusedTrueIff(calls, n, j);
    assert Observed(calls[j], sights[j]) && Observed(calls[n], sights[n]);
    if Accepted(calls[j]) {
      AcceptedReading(calls[j], sights[j]);
      var files := AcceptedPaths(calls[j]);
      SameReadingIff(sights[j].closureAfter, sights[n].closure, files, AcceptedFingerprint(calls[j]), calls[n].closure(files));
    }
  }
}
