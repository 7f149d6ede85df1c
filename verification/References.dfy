/** Chains of artifact references: when following one ends, and what a save or a delete does to
    what others load. */
module References {
  import opened Texts
  import opened Sequences
  import opened Artifacts

  // --- Saves and loads ------------------------------------------------------------------------------

  /** A part of one payload, as clients build them. */
  predicate IsSimple(part: Part) {
    match part
    case Part(Some(blob), None, None) =>
      blob.data.Some? && blob.mime.Some? && blob.mime.value != [] && blob.displayName != Some([])
    case Part(None, Some(_), None) => true
    case Part(None, None, Some(data)) => data.uri.Some? && data.uri.value != [] && !IsRef(data.uri.value)
    case _ => false
  }

  /** What was saved is what the next load returns. */
  lemma SavedPartReturns(view: View, rules: Rules, app: Text, user: Text, session: Option<Text>, filename: Text, part: Part,
                         room: nat)
    requires IsSimple(part) && KeyOf(app, user, session, filename).Some?
    ensures var k := KeyOf(app, user, session, filename).value;
            var content := BuildContent(rules, app, user, session, part);
            content.Some?
            && Fetch(Saved(view, k, Envelope(|Versions(view, k)|, content.value)), rules, app, user, session, filename, None, room)
               == Loaded(part)
  {
    hide KeyOf, IsRef;
  }

  // --- Saves leave loads as they were --------------------------------------------------------------------

  /** The reference a stored content holds, whoever asks. */
  function RefIn(rules: Rules, content: Content): Option<Ref> {
    if content.FileContent? && IsRef(content.uri) then rules.parse(content.uri) else None
  }

  /** A reference names a version that is stored. */
  predicate Backed(view: View, r: Ref) {
    var k := KeyOf(r.app, r.user, r.session, r.filename);
    k.Some? && Stored(view, k.value, r.version)
  }

  ghost predicate Closed(view: View, rules: Rules) {
    forall k, v: nat :: Stored(view, k, v) ==>
      RefIn(rules, view[k][v].content).Some? ==> Backed(view, RefIn(rules, view[k][v].content).value)
  }

  lemma TargetIsRef(rules: Rules, app: Text, user: Text, session: Option<Text>, content: Content)
    requires content.FileContent? && IsRef(content.uri) && Target(rules, app, user, session, content.uri).Some?
    ensures RefIn(rules, content) == Target(rules, app, user, session, content.uri)
  {
  }

  /** While every stored reference names a stored version, a save changes nothing that any load of a
      stored version returns. */
  lemma {:induction false} SaveKeepsLoads(view: View, rules: Rules, k: Key, e: Envelope, app: Text, user: Text,
                                          session: Option<Text>, filename: Text, v: nat, room: nat)
    requires Closed(view, rules)
    requires KeyOf(app, user, session, filename).Some? && Stored(view, KeyOf(app, user, session, filename).value, v)
    ensures Fetch(Saved(view, k, e), rules, app, user, session, filename, Some(v), room)
            == Fetch(view, rules, app, user, session, filename, Some(v), room)
    decreases room
  {
    hide KeyOf, IsRef, Restored, Target;
    var own := KeyOf(app, user, session, filename).value;
    var content := view[own][v].content;
    if content.FileContent? && IsRef(content.uri) {
      var target := Target(rules, app, user, session, content.uri);
      if target.Some? && room > 0 {
        TargetIsRef(rules, app, user, session, content);
        var r := target.value;
        SaveKeepsLoads(view, rules, k, e, r.app, r.user, r.session, r.filename, r.version, room - 1);
      }
    }
  }

  // --- Room enough --------------------------------------------------------------------------------------------

  lemma {:induction false} MoreRoom(view: View, rules: Rules, app: Text, user: Text, session: Option<Text>, filename: Text,
                                    version: Option<int>, room: nat, more: nat)
    requires room <= more && Fetch(view, rules, app, user, session, filename, version, room) != TooDeep
    ensures Fetch(view, rules, app, user, session, filename, version, more)
            == Fetch(view, rules, app, user, session, filename, version, room)
    decreases room
  {
    hide KeyOf, IsRef, Restored, Target, IsFolder;
    var key := KeyOf(app, user, session, filename);
    if key.Some? && !(version.None? && Versions(view, key.value) == []) {
      var v := version.Or(|Versions(view, key.value)| - 1);
      if Stored(view, key.value, v) {
        var content := Versions(view, key.value)[v].content;
        if content.FileContent? && IsRef(content.uri) {
          var target := Target(rules, app, user, session, content.uri);
          if target.Some? {
            var r := target.value;
            MoreRoom(view, rules, r.app, r.user, r.session, r.filename, Some(r.version), room - 1, more - 1);
          }
        }
      }
    }
  }

  // --- A load ends soon or never ------------------------------------------------------------------------------

  /** The references that stored versions hold. */
  function StoredRefs(view: View, rules: Rules): set<Ref> {
    set k, v | k in view && 0 <= v < |view[k]| && RefIn(rules, view[k][v].content).Some? :: RefIn(rules, view[k][v].content).value
  }

  /** The reference that loading a reference goes on to. */
  function Hop(view: View, rules: Rules, r: Ref): Option<Ref> {
    var key := KeyOf(r.app, r.user, r.session, r.filename);
    if key.None? || !Stored(view, key.value, r.version) then None
    else
      var content := view[key.value][r.version].content;
      if content.FileContent? && IsRef(content.uri) then Target(rules, r.app, r.user, r.session, content.uri) else None
  }

  ghost function FetchRef(view: View, rules: Rules, r: Ref, room: nat): Outcome {
    Fetch(view, rules, r.app, r.user, r.session, r.filename, Some(r.version), room)
  }

  lemma TooDeepHops(view: View, rules: Rules, r: Ref, room: nat)
    ensures FetchRef(view, rules, r, room) == TooDeep
       <==> Hop(view, rules, r).Some? && (room == 0 || FetchRef(view, rules, Hop(view, rules, r).value, room - 1) == TooDeep)
  {
    hide KeyOf, IsRef, Restored, Target, IsFolder;
    var key := KeyOf(r.app, r.user, r.session, r.filename);
    if key.Some? && Stored(view, key.value, r.version) {
      var content := view[key.value][r.version].content;
      assert FetchRef(view, rules, r, room) == Resolve(view, rules, r.app, r.user, r.session, content, room);
      if Hop(view, rules, r).Some? && room > 0 {
        assert Resolve(view, rules, r.app, r.user, r.session, content, room)
            == FetchRef(view, rules, Hop(view, rules, r).value, room - 1);
      }
    }
  }

  lemma HopStored(view: View, rules: Rules, r: Ref)
    requires Hop(view, rules, r).Some?
    ensures Hop(view, rules, r).value in StoredRefs(view, rules)
  {
    hide KeyOf, IsRef;
    var k := KeyOf(r.app, r.user, r.session, r.filename).value;
    var content := view[k][r.version].content;
    TargetIsRef(rules, r.app, r.user, r.session, content);
  }

  predicate IsTrail(view: View, rules: Rules, p: seq<Ref>) {
    forall i :: 0 <= i < |p| - 1 ==> Hop(view, rules, p[i]) == Some(p[i + 1])
  }

  /** A load that runs out of room has followed a trail as long as the room. */
  lemma {:induction false} DeepTrail(view: View, rules: Rules, r: Ref, room: nat) returns (p: seq<Ref>)
    requires FetchRef(view, rules, r, room) == TooDeep
    ensures |p| == room + 2 && p[0] == r && IsTrail(view, rules, p)
    ensures forall i :: 1 <= i < |p| ==> p[i] in StoredRefs(view, rules)
    decreases room
  {
    hide FetchRef, Hop, StoredRefs;
    TooDeepHops(view, rules, r, room);
    HopStored(view, rules, r);
    var next := Hop(view, rules, r).value;
    if room == 0 {
      p := [r, next];
    } else {
      var rest := DeepTrail(view, rules, next, room - 1);
      p := [r] + rest;
    }
  }

  /** A trail that comes back to itself never ends. */
  lemma {:induction false} TrailLoops(view: View, rules: Rules, p: seq<Ref>, i: nat, j: nat, k: nat, room: nat)
    requires IsTrail(view, rules, p) && i < j < |p| && p[i] == p[j] && k < j
    ensures FetchRef(view, rules, p[k], room) == TooDeep
    decreases room
  {
    hide FetchRef, Hop;
    TooDeepHops(view, rules, p[k], room);
    assert Hop(view, rules, p[k]) == Some(p[k + 1]);
    if room > 0 { TrailLoops(view, rules, p, i, j, if k + 1 == j then i else k + 1, room - 1); }
  }

  /** A trail from the reference comes back to a reference it has passed. */
  ghost predicate Loops(view: View, rules: Rules, r: Ref) {
    exists p, i, j :: IsTrail(view, rules, p) && 0 <= i < j < |p| && p[0] == r && p[i] == p[j]
  }

  /** Running out of as much room as there are references stored is going round a loop. */
  lemma DeepLoops(view: View, rules: Rules, r: Ref, room: nat)
    requires room >= |StoredRefs(view, rules)| && FetchRef(view, rules, r, room) == TooDeep
    ensures Loops(view, rules, r)
  {
    hide FetchRef, Hop, StoredRefs;
    var p := DeepTrail(view, rules, r, room);
    var q := p[1..];
    if Sequences.IsSimple(q) { SimpleFits(q, StoredRefs(view, rules)); }
    var i, j :| 0 <= i < j < |q| && q[i] == q[j];
    assert p[i + 1] == q[i] && p[j + 1] == q[j];
  }

  lemma LoopsDeep(view: View, rules: Rules, r: Ref, room: nat)
    requires Loops(view, rules, r)
    ensures FetchRef(view, rules, r, room) == TooDeep
  {
    hide FetchRef, IsTrail;
    var p, i, j :| IsTrail(view, rules, p) && 0 <= i < j < |p| && p[0] == r && p[i] == p[j];
    TrailLoops(view, rules, p, i, j, 0, room);
  }

  /** A reference never loads, whatever the room, exactly when the references stored lead from it
      round a loop. */
  lemma RefNeverEnds(view: View, rules: Rules, r: Ref)
    ensures (forall room: nat :: FetchRef(view, rules, r, room) == TooDeep) <==> Loops(view, rules, r)
  {
    hide FetchRef, Loops, StoredRefs;
    if forall room: nat :: FetchRef(view, rules, r, room) == TooDeep {
      DeepLoops(view, rules, r, |StoredRefs(view, rules)|);
    }
    if Loops(view, rules, r) {
      forall room: nat ensures FetchRef(view, rules, r, room) == TooDeep { LoopsDeep(view, rules, r, room); }
    }
  }

  /** The stored version a load is of, as a reference to it. */
  function Requested(view: View, app: Text, user: Text, session: Option<Text>, filename: Text, version: Option<int>): Option<Ref> {
    var key := KeyOf(app, user, session, filename);
    if key.None? then None
    else
      var v := version.Or(|Versions(view, key.value)| - 1);
      if Stored(view, key.value, v) then Some(Ref(app, user, session, filename, v)) else None
  }

  lemma FetchRequested(view: View, rules: Rules, app: Text, user: Text, session: Option<Text>, filename: Text,
                       version: Option<int>, room: nat)
    ensures var r := Requested(view, app, user, session, filename, version);
            if r.Some? then Fetch(view, rules, app, user, session, filename, version, room) == FetchRef(view, rules, r.value, room)
            else Fetch(view, rules, app, user, session, filename, version, room) != TooDeep
  {
    hide KeyOf, Resolve, IsFolder;
  }

  /** A load never ends, whatever the room, exactly when it is of a stored version from which the
      references stored lead round a loop. */
  lemma NeverEnds(view: View, rules: Rules, app: Text, user: Text, session: Option<Text>, filename: Text,
                  version: Option<int>)
    ensures (forall room: nat :: Fetch(view, rules, app, user, session, filename, version, room) == TooDeep)
       <==> Requested(view, app, user, session, filename, version).Some?
            && Loops(view, rules, Requested(view, app, user, session, filename, version).value)
  {
    hide Fetch, FetchRef, Loops, Requested;
    var r := Requested(view, app, user, session, filename, version);
    forall room: nat
      ensures if r.Some?
              then Fetch(view, rules, app, user, session, filename, version, room) == FetchRef(view, rules, r.value, room)
              else Fetch(view, rules, app, user, session, filename, version, room) != TooDeep
    {
      FetchRequested(view, rules, app, user, session, filename, version, room);
    }
    if r.None? {
      assert Fetch(view, rules, app, user, session, filename, version, 0) != TooDeep;
    } else {
      RefNeverEnds(view, rules, r.value);
      if Loops(view, rules, r.value) {
        forall room: nat ensures Fetch(view, rules, app, user, session, filename, version, room) == TooDeep {
          assert FetchRef(view, rules, r.value, room) == TooDeep;
        }
      } else {
        var room: nat :| FetchRef(view, rules, r.value, room) != TooDeep;
        assert Fetch(view, rules, app, user, session, filename, version, room) != TooDeep;
      }
    }
  }

  /** Whatever is stored: a load that does not end within as many hops as there are different
      references stored never ends. */
  lemma EndsOrNever(view: View, rules: Rules, app: Text, user: Text, session: Option<Text>, filename: Text,
                    version: Option<int>, room: nat, more: nat)
    requires room >= |StoredRefs(view, rules)|
    requires Fetch(view, rules, app, user, session, filename, version, room) == TooDeep
    ensures Fetch(view, rules, app, user, session, filename, version, more) == TooDeep
  {
    hide Fetch, FetchRef, Loops, StoredRefs, Requested;
    FetchRequested(view, rules, app, user, session, filename, version, room);
    FetchRequested(view, rules, app, user, session, filename, version, more);
    DeepLoops(view, rules, Requested(view, app, user, session, filename, version).value, room);
    LoopsDeep(view, rules, Requested(view, app, user, session, filename, version).value, more);
  }

  // --- Runs of saves ----------------------------------------------------------------------------------------------

  datatype Save = Save(k: Key, content: Content)

  function NextEnvelope(view: View, save: Save): Envelope {
    Envelope(|Versions(view, save.k)|, save.content)
  }

  /** What a run of saves, with no delete among them, leaves stored. */
  function ViewOf(run: seq<Save>): View {
    if run == [] then map[]
    else
      var view := ViewOf(run[..|run| - 1]);
      Saved(view, run[|run| - 1].k, NextEnvelope(view, run[|run| - 1]))
  }

  /** Each reference names a version already stored when it was saved. */
  ghost predicate Backward(run: seq<Save>, rules: Rules)
    decreases |run|
  {
    run == []
    || (Backward(run[..|run| - 1], rules)
        && (RefIn(rules, run[|run| - 1].content).Some?
            ==> Backed(ViewOf(run[..|run| - 1]), RefIn(rules, run[|run| - 1].content).value)))
  }

  lemma BackedAfter(view: View, k: Key, e: Envelope, r: Ref)
    requires Backed(view, r)
    ensures Backed(Saved(view, k, e), r)
  {
  }

  lemma {:induction false} BackwardCloses(run: seq<Save>, rules: Rules)
    requires Backward(run, rules)
    ensures Closed(ViewOf(run), rules)
    decreases |run|
  {
    hide RefIn, Backed;
    if run != [] {
      var view := ViewOf(run[..|run| - 1]);
      var save := run[|run| - 1];
      var view' := Saved(view, save.k, NextEnvelope(view, save));
      BackwardCloses(run[..|run| - 1], rules);
      forall k, v: nat | Stored(view', k, v) && RefIn(rules, view'[k][v].content).Some?
        ensures Backed(view', RefIn(rules, view'[k][v].content).value)
      {
        if Stored(view, k, v) {
          BackedAfter(view, save.k, NextEnvelope(view, save), RefIn(rules, view[k][v].content).value);
        } else {
          BackedAfter(view, save.k, NextEnvelope(view, save), RefIn(rules, save.content).value);
        }
      }
    }
  }

  /** Following the references of a stored version takes fewer hops than there were saves. */
  lemma {:induction false} StoredEnds(run: seq<Save>, rules: Rules, app: Text, user: Text, session: Option<Text>,
                                      filename: Text, v: nat)
    requires Backward(run, rules)
    requires KeyOf(app, user, session, filename).Some? && Stored(ViewOf(run), KeyOf(app, user, session, filename).value, v)
    ensures run != [] && Fetch(ViewOf(run), rules, app, user, session, filename, Some(v), |run| - 1) != TooDeep
    decreases |run|
  {
    hide KeyOf, IsRef, Restored, Target, Closed, Backed, Fetch;
    assert run != [];
    var own := KeyOf(app, user, session, filename).value;
    var earlier := run[..|run| - 1];
    var view, save := ViewOf(earlier), run[|run| - 1];
    BackwardCloses(earlier, rules);
    if Stored(view, own, v) {
      StoredEnds(earlier, rules, app, user, session, filename, v);
      MoreRoom(view, rules, app, user, session, filename, Some(v), |run| - 2, |run| - 1);
      SaveKeepsLoads(view, rules, save.k, NextEnvelope(view, save), app, user, session, filename, v, |run| - 1);
    } else {
      NewestEnds(run, rules, app, user, session, filename, v);
    }
  }

  lemma {:induction false} NewestEnds(run: seq<Save>, rules: Rules, app: Text, user: Text, session: Option<Text>,
                                      filename: Text, v: nat)
    requires run != [] && Backward(run, rules) && KeyOf(app, user, session, filename) == Some(run[|run| - 1].k)
    requires v == |Versions(ViewOf(run[..|run| - 1]), run[|run| - 1].k)|
    ensures Fetch(ViewOf(run), rules, app, user, session, filename, Some(v), |run| - 1) != TooDeep
    decreases |run|, 0
  {
    hide KeyOf, IsRef, Restored, Closed;
    var earlier := run[..|run| - 1];
    var view, save := ViewOf(earlier), run[|run| - 1];
    assert Stored(ViewOf(run), save.k, v) && Versions(ViewOf(run), save.k)[v].content == save.content;
    if save.content.FileContent? && IsRef(save.content.uri) {
      var target := Target(rules, app, user, session, save.content.uri);
      if target.Some? {
        TargetIsRef(rules, app, user, session, save.content);
        var r := target.value;
        assert Backed(view, r);
        BackwardCloses(earlier, rules);
        StoredEnds(earlier, rules, r.app, r.user, r.session, r.filename, r.version);
        SaveKeepsLoads(view, rules, save.k, NextEnvelope(view, save), r.app, r.user, r.session, r.filename, r.version, |run| - 2);
      }
    }
  }

  /** On every run of saves whose references name versions already stored, every load ends, in no
      more hops than there are stored envelopes. */
  lemma LoadsEnd(files: map<Path, Envelope>, run: seq<Save>, rules: Rules, app: Text, user: Text, session: Option<Text>,
                 filename: Text, version: Option<int>, room: nat)
    requires Represents(files, ViewOf(run)) && Backward(run, rules) && room >= |files|
    ensures |files| == |run|
    ensures Fetch(ViewOf(run), rules, app, user, session, filename, version, room) != TooDeep
  {
    hide KeyOf, Represents, Backward, ViewOf, IsFolder, Resolve;
    FilesCounted(files, run);
    var key := KeyOf(app, user, session, filename);
    if key.Some? {
      var versions := Versions(ViewOf(run), key.value);
      var v := version.Or(|versions| - 1);
      if Stored(ViewOf(run), key.value, v) {
        StoredEnds(run, rules, app, user, session, filename, v);
        MoreRoom(ViewOf(run), rules, app, user, session, filename, Some(v), |run| - 1, room);
      }
    }
  }

  /** As many files as saves. */
  lemma {:induction false} FilesCounted(files: map<Path, Envelope>, run: seq<Save>)
    requires Represents(files, ViewOf(run))
    ensures |files| == |run|
    decreases |run|
  {
    hide VersionPath, IsKey, KeysOk, Filed, Accounted;
    if run == [] {
      NoFiles(files);
    } else {
      var view, save := ViewOf(run[..|run| - 1]), run[|run| - 1];
      var e := NextEnvelope(view, save);
      var path := VersionPath(save.k, e.version);
      assert Stored(ViewOf(run), save.k, e.version);
      VersionFile(files, ViewOf(run), save.k, e.version);
      RunsNoneEmpty(run[..|run| - 1]);
      UnsavedRepresents(files, view, save.k, e);
      FilesCounted(files - {path}, run[..|run| - 1]);
      assert (files - {path}).Keys == files.Keys - {path};
    }
  }

  lemma NoFiles(files: map<Path, Envelope>)
    requires Represents(files, map[])
    ensures files == map[]
  {
    forall p ensures p !in files {
      assert p in files ==> IsVersionFile(map[], p);
    }
  }

  /** No artifact without a version. */
  predicate NoneEmpty(view: View) {
    forall k :: k in view ==> view[k] != []
  }

  lemma {:induction false} RunsNoneEmpty(run: seq<Save>)
    ensures NoneEmpty(ViewOf(run))
    decreases |run|
  {
    if run != [] { RunsNoneEmpty(run[..|run| - 1]); }
  }

  lemma UnsavedRepresents(files: map<Path, Envelope>, view: View, k: Key, e: Envelope)
    requires Represents(files, Saved(view, k, e)) && e.version == |Versions(view, k)|
    requires NoneEmpty(view)
    ensures Represents(files - {VersionPath(k, e.version)}, view)
  {
    hide VersionPath, IsKey, IsVersionFile;
    var view' := Saved(view, k, e);
    var path := VersionPath(k, e.version);
    forall j, v: nat | Stored(view, j, v)
      ensures VersionPath(j, v) in files - {path} && files[VersionPath(j, v)] == view[j][v] && view[j][v].version == v
    {
      assert Stored(view', j, v);
      if VersionPath(j, v) == path { VersionPathInjective(j, v, k, e.version); }
    }
    forall p | p in files - {path} ensures IsVersionFile(view, p) {
      StillStored(view', view, p);
    }
  }

  // --- Why both conditions are needed ---------------------------------------------------------------------------------

  /** The reference names the artifact's first version. */
  predicate Names(rules: Rules, content: Content, k: Key) {
    RefIn(rules, content).Some?
    && var r := RefIn(rules, content).value; KeyOf(r.app, r.user, r.session, r.filename) == Some(k) && r.version == 0
  }

  predicate FirstNames(view: View, rules: Rules, j: Key, k: Key) {
    Stored(view, j, 0) && Names(rules, view[j][0].content, k)
  }

  /** References to the first versions of two artifacts that name each other lead round a loop. */
  lemma NamedLoops(view: View, rules: Rules, j: Key, k: Key, r: Ref)
    requires FirstNames(view, rules, j, k) && FirstNames(view, rules, k, j)
    requires forall app, user, session, ref :: rules.inScope(app, user, session, ref)
    requires KeyOf(r.app, r.user, r.session, r.filename) == Some(j) && r.version == 0
    ensures Loops(view, rules, r)
  {
    hide KeyOf, IsRef;
    var toK := RefIn(rules, view[j][0].content).value;
    var toJ := RefIn(rules, view[k][0].content).value;
    var p := [r, toK, toJ, toK];
    assert Hop(view, rules, r) == Some(toK) && Hop(view, rules, toK) == Some(toJ) && Hop(view, rules, toJ) == Some(toK);
    assert IsTrail(view, rules, p) && p[1] == p[3];
  }

  /** A reference to the version it is itself saved as: nothing refuses it, and it never loads. */
  lemma SelfReferenceNeverEnds(rules: Rules, k: Key, itself: Content, app: Text, user: Text, session: Option<Text>,
                               filename: Text, room: nat)
    requires Names(rules, itself, k) && KeyOf(app, user, session, filename) == Some(k)
    requires forall app, user, session, r :: rules.inScope(app, user, session, r)
    ensures Fetch(ViewOf([Save(k, itself)]), rules, app, user, session, filename, Some(0), room) == TooDeep
  {
    hide Fetch, Names, KeyOf, Loops;
    var run := [Save(k, itself)];
    assert run[..0] == [];
    assert ViewOf(run) == Saved(map[], k, Envelope(0, itself));
    assert ViewOf(run)[k] == [Envelope(0, itself)];
    NamedLoops(ViewOf(run), rules, k, k, Ref(app, user, session, filename, 0));
    NeverEnds(ViewOf(run), rules, app, user, session, filename, Some(0));
  }

  /** Deleting restarts an artifact's numbers, so that a reference already saved comes to name what
      is saved later: every reference here names a version stored at the time, and no load of the
      two artifacts ends. */
  lemma DeleteMakesLoop(rules: Rules, j: Key, k: Key, text: Content, toJ: Content, toK: Content, app: Text, user: Text,
                        session: Option<Text>, filename: Text, room: nat)
    requires j != k && RefIn(rules, text) == None && Names(rules, toJ, j) && Names(rules, toK, k)
    requires forall app, user, session, r :: rules.inScope(app, user, session, r)
    requires KeyOf(app, user, session, filename) == Some(j)
    ensures var view1 := Saved(map[], j, Envelope(0, text));
            var view2 := Saved(view1, k, Envelope(0, toJ));
            var view3 := Removed(view2, j);
            var view4 := Saved(view3, j, Envelope(0, toK));
            && Backed(view1, RefIn(rules, toJ).value) && Backed(view3, RefIn(rules, toK).value)
            && Versions(view1, k) == [] && Versions(view3, j) == []
            && Fetch(view4, rules, app, user, session, filename, Some(0), room) == TooDeep
  {
    hide Fetch, KeyOf, RefIn, Loops;
    var view2 := Saved(Saved(map[], j, Envelope(0, text)), k, Envelope(0, toJ));
    var view4 := Saved(Removed(view2, j), j, Envelope(0, toK));
    NamedLoops(view4, rules, j, k, Ref(app, user, session, filename, 0));
    NeverEnds(view4, rules, app, user, session, filename, Some(0));
  }

  // --- Numbers in filenames ------------------------------------------------------------------------------------------------

  /** Without the rule on numbers in filenames, versions of one artifact pass for versions of
      another: a name with a number anywhere after its first segment lists that number under the
      name made of the segments before it. */
  lemma NumberInNameClashes(files: map<Path, Envelope>, j: Key, i: nat, v: nat)
    requires 0 < i < |Split(j.filename, SLASH)| && IsNumeral(Split(j.filename, SLASH)[i])
    requires VersionPath(j, v) in files
    ensures var k := Above(j, i); k != j && Split(j.filename, SLASH)[i] in Children(files, Dir(k))
  {
    AboveIs(j, i);
    assert VersionPath(j, v)[|Dir(Above(j, i))|] == Split(j.filename, SLASH)[i];
  }

  /** The artifact named by the segments before one. */
  function Above(j: Key, i: nat): Key
    requires i <= |Split(j.filename, SLASH)|
  {
    j.(filename := Join(Split(j.filename, SLASH)[..i], SLASH))
  }

  lemma AboveIs(j: Key, i: nat)
    requires 0 < i < |Split(j.filename, SLASH)|
    ensures Split(Above(j, i).filename, SLASH) == Split(j.filename, SLASH)[..i]
    ensures Above(j, i) != j && forall v: int :: Dir(Above(j, i)) < VersionPath(j, v)
  {
    var segments := Split(j.filename, SLASH);
    forall p | p in segments[..i] ensures SLASH !in p { assert p in segments; }
    SplitJoin(segments[..i], SLASH);
    assert |segments[..i]| < |segments|;
    forall v: int ensures Dir(Above(j, i)) < VersionPath(j, v) {
      assert VersionPath(j, v) == [j.app, j.user, j.place] + segments + [IntText(v)];
    }
  }

  /** A version of one artifact lies under a number in another's directory. */
  ghost predicate Strays(j: Key, v: nat) {
    exists k :: k != j && Dir(k) < VersionPath(j, v) && IsNumeral(VersionPath(j, v)[|Dir(k)|])
  }

  predicate NumbersFirstOnly(filename: Text) {
    var segments := Split(filename, SLASH);
    forall i :: 0 < i < |segments| ==> !IsNumeral(segments[i])
  }

  /** The rule is exact: an artifact's versions stray into no other's exactly when no segment of its
      name but the first is a number. */
  lemma NumberRuleExact(j: Key, v: nat)
    ensures Strays(j, v) <==> !NumbersFirstOnly(j.filename)
  {
    hide IsNumeral;
    var segments := Split(j.filename, SLASH);
    if !NumbersFirstOnly(j.filename) {
      var i :| 0 < i < |segments| && IsNumeral(segments[i]);
      AboveIs(j, i);
      assert VersionPath(j, v)[|Dir(Above(j, i))|] == segments[i];
    }
    if k :| k != j && Dir(k) < VersionPath(j, v) && IsNumeral(VersionPath(j, v)[|Dir(k)|]) {
      var p := VersionPath(j, v);
      assert p[..|Dir(j)|] == Dir(j);
      if |Dir(k)| == |Dir(j)| {
        assert Dir(k) == Dir(j);
        DirInjective(j, k);
      } else {
        assert p[|Dir(k)|] == segments[|Dir(k)| - 3];
      }
    }
  }
}
