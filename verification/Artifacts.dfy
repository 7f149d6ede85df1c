/** The versioned artifact store over a flat path store (`app/shared/artifacts.py`): what is kept
    is one file per version, named by its number, in a directory named by the artifact. */
module Artifacts {
  import opened Texts

  type Byte = b: int | 0 <= b < 256

  /** Segments below the root. */
  type Path = seq<Text>

  const USER: Text := Ascii("user")
  const USER_PREFIX: Text := Ascii("user:")
  const REFERENCE_SCHEME: Text := Ascii("artifact://")
  const DEFAULT_MIME: Text := Ascii("application/octet-stream")

  // --- Parts and envelopes ------------------------------------------------------------------------

  datatype Blob = Blob(data: Option<seq<Byte>>, mime: Option<Text>, displayName: Option<Text>)

  datatype FileData = FileData(uri: Option<Text>, mime: Option<Text>)

  datatype Part = Part(inline: Option<Blob>, text: Option<Text>, file: Option<FileData>)

  datatype Content =
    | InlineContent(data: seq<Byte>, mime: Option<Text>, displayName: Text)
    | TextContent(text: Text)
    | FileContent(uri: Text, mime: Option<Text>)

  datatype Envelope = Envelope(version: nat, content: Content)

  /** A parsed reference: it always names a version. */
  datatype Ref = Ref(app: Text, user: Text, session: Option<Text>, filename: Text, version: nat)

  /** The runtime's URI parser and its check that a reference stays within its requester's scope. */
  datatype Rules = Rules(parse: Text -> Option<Ref>, inScope: (Text, Text, Option<Text>, Ref) -> bool)

  predicate IsRef(uri: Text) {
    At(uri, 0, REFERENCE_SCHEME)
  }

  /** The reference a file URI holds, when it is one the requester may follow. */
  function Target(rules: Rules, app: Text, user: Text, session: Option<Text>, uri: Text): Option<Ref> {
    var parsed := rules.parse(uri);
    if parsed.Some? && rules.inScope(app, user, session, parsed.value) then parsed else None
  }

  /** What is stored of a part; None where the source raises. */
  function BuildContent(rules: Rules, app: Text, user: Text, session: Option<Text>, part: Part): Option<Content> {
    if part.inline.Some? then
      var blob := part.inline.value;
      Some(InlineContent(blob.data.Or([]), blob.mime, blob.displayName.Or([])))
    else if part.text.Some? then Some(TextContent(part.text.value))
    else if part.file.Some? then
      var uri := part.file.value.uri.Or([]);
      if uri == [] || (IsRef(uri) && Target(rules, app, user, session, uri).None?) then None
      else Some(FileContent(uri, part.file.value.mime))
    else None
  }

  /** The part an envelope holds, when it is not a reference. */
  function Restored(content: Content): Part {
    match content
    case TextContent(text) => Part(None, Some(text), None)
    case FileContent(uri, mime) => Part(None, None, Some(FileData(Some(uri), mime)))
    case InlineContent(data, mime, displayName) =>
      Part(Some(Blob(Some(data), Some(if mime.Or([]) == [] then DEFAULT_MIME else mime.value),
                     if displayName == [] then None else Some(displayName))), None, None)
  }

  // --- Keys and paths --------------------------------------------------------------------------------

  /** An artifact: `place` is its session, or "user" when its name is in the user's namespace. */
  datatype Key = Key(app: Text, user: Text, place: Text, filename: Text)

  predicate IsSegment(t: Text) {
    t != [] && SLASH !in t && t != [DOT] && t != [DOT, DOT]
  }

  predicate InUserNamespace(filename: Text) {
    At(filename, 0, USER_PREFIX)
  }

  /** The artifact a call speaks of; None where the source raises. */
  function KeyOf(app: Text, user: Text, session: Option<Text>, filename: Text): (key: Option<Key>)
    ensures key.Some? ==> key.value.filename == filename && (InUserNamespace(filename) ==> key.value.place == USER)
  {
    if !IsSegment(app) || !IsSegment(user) then None
    else if InUserNamespace(filename) then Some(Key(app, user, USER, filename))
    else if session.None? || !IsSegment(session.value) then None
    else Some(Key(app, user, session.value, filename))
  }

  /** A filename whose segments a path keeps apart, and keeps apart from version numbers. */
  predicate IsPlain(filename: Text) {
    var segments := Split(filename, SLASH);
    forall i :: 0 <= i < |segments| ==> IsSegment(segments[i]) && (i > 0 ==> !IsNumeral(segments[i]))
  }

  function Dir(k: Key): (p: Path)
    ensures |p| >= 4
  {
    [k.app, k.user, k.place] + Split(k.filename, SLASH)
  }

  function VersionPath(k: Key, version: int): Path {
    Dir(k) + [IntText(version)]
  }

  lemma DirInjective(j: Key, k: Key)
    requires Dir(j) == Dir(k)
    ensures j == k
  {
    assert Dir(j)[3..] == Split(j.filename, SLASH) && Dir(k)[3..] == Split(k.filename, SLASH);
    JoinSplit(j.filename, SLASH);
    JoinSplit(k.filename, SLASH);
    assert Dir(j)[0] == Dir(k)[0] && Dir(j)[1] == Dir(k)[1] && Dir(j)[2] == Dir(k)[2];
  }

  lemma NumeralText(v: int)
    ensures IsNumeral(IntText(v)) <==> v >= 0
    ensures v >= 0 ==> NatOf(IntText(v)) == v
  {
    if v >= 0 {
      NatOfDigits(v);
    } else {
      assert !IsDigit(IntText(v)[0]);
    }
  }

  /** Two versions share a path only when they are one version of one artifact. */
  lemma VersionPathInjective(j: Key, v: int, k: Key, w: int)
    requires VersionPath(j, v) == VersionPath(k, w)
    ensures j == k && v == w
  {
    var p, q := VersionPath(j, v), VersionPath(k, w);
    assert |p| == |Dir(j)| + 1 && |q| == |Dir(k)| + 1;
    assert Dir(j) == p[..|p| - 1] && Dir(k) == q[..|q| - 1];
    assert p[|p| - 1] == IntText(v) && q[|q| - 1] == IntText(w);
    DirInjective(j, k);
    IntTextInjective(v, w);
  }

  /** Nothing of another artifact lies directly in an artifact's directory under a number. */
  lemma ChildOfDir(j: Key, v: nat, k: Key)
    requires IsPlain(j.filename) && Dir(k) < VersionPath(j, v)
    ensures IsNumeral(VersionPath(j, v)[|Dir(k)|]) <==> j == k
    ensures j == k ==> VersionPath(j, v)[|Dir(k)|] == IntText(v)
  {
    var p := VersionPath(j, v);
    NumeralText(v);
    assert p[..|Dir(j)|] == Dir(j);
    if |Dir(j)| == |Dir(k)| {
      assert Dir(k) == p[..|Dir(k)|];
      DirInjective(j, k);
    } else {
      assert p[|Dir(k)|] == Dir(j)[|Dir(k)|] == Split(j.filename, SLASH)[|Dir(k)| - 3];
    }
  }

  // --- What the files stand for --------------------------------------------------------------------------

  /** Every artifact with its versions, oldest first. */
  type View = map<Key, seq<Envelope>>

  function Versions(view: View, k: Key): seq<Envelope> {
    if k in view then view[k] else []
  }

  predicate Stored(view: View, k: Key, v: int) {
    0 <= v < |Versions(view, k)|
  }

  ghost predicate IsVersionFile(view: View, p: Path) {
    exists k, v: nat :: Stored(view, k, v) && p == VersionPath(k, v)
  }

  predicate IsKey(k: Key) {
    IsPlain(k.filename) && (InUserNamespace(k.filename) ==> k.place == USER)
  }

  ghost predicate KeysOk(view: View) {
    forall k :: k in view ==> view[k] != [] && IsKey(k)
  }

  /** Every version has its file. */
  ghost predicate Filed(files: map<Path, Envelope>, view: View) {
    forall k, v: nat :: Stored(view, k, v) ==>
      VersionPath(k, v) in files && files[VersionPath(k, v)] == view[k][v] && view[k][v].version == v
  }

  /** Every file is a version. */
  ghost predicate Accounted(files: map<Path, Envelope>, view: View) {
    forall p :: p in files ==> IsVersionFile(view, p)
  }

  ghost predicate Represents(files: map<Path, Envelope>, view: View) {
    KeysOk(view) && Filed(files, view) && Accounted(files, view)
  }

  /** The files determine the artifacts and their versions: there is no gap and no stray file. */
  lemma RepresentsOne(files: map<Path, Envelope>, a: View, b: View)
    requires Represents(files, a) && Represents(files, b)
    ensures a == b
  {
    forall k ensures Versions(a, k) == Versions(b, k) {
      LongerStored(files, a, b, k);
      LongerStored(files, b, a, k);
    }
    assert a.Keys == b.Keys by {
      forall k ensures k in a <==> k in b {
        assert Versions(a, k) == Versions(b, k);
      }
    }
    forall k | k in a ensures a[k] == b[k] { assert Versions(a, k) == Versions(b, k); }
  }

  lemma LongerStored(files: map<Path, Envelope>, a: View, b: View, k: Key)
    requires Represents(files, a) && Represents(files, b)
    ensures |Versions(a, k)| <= |Versions(b, k)|
    ensures forall v: nat :: v < |Versions(a, k)| ==> Versions(a, k)[v] == Versions(b, k)[v]
  {
    hide IsKey, VersionPath;
    forall v: nat | v < |Versions(a, k)| ensures Stored(b, k, v) && Versions(a, k)[v] == Versions(b, k)[v] {
      assert Stored(a, k, v);
      var p := VersionPath(k, v);
      assert p in files && IsVersionFile(b, p);
      var j, w: nat :| Stored(b, j, w) && p == VersionPath(j, w);
      VersionPathInjective(j, w, k, v);
    }
    if |Versions(a, k)| > 0 {
      assert Stored(b, k, |Versions(a, k)| - 1);
    }
  }

  // --- Loading, on artifacts and versions ----------------------------------------------------------------------

  datatype Outcome = Loaded(part: Part) | Nothing | Invalid | NotAFile | TooDeep

  /** Some artifact's directory lies at or under this path. */
  ghost predicate IsFolder(view: View, path: Path) {
    exists k :: k in view && path <= Dir(k)
  }

  /** What a load returns: the last version when none is named; a reference is followed, in as many
      hops as the interpreter's stack has room for. */
  ghost function Fetch(view: View, rules: Rules, app: Text, user: Text, session: Option<Text>, filename: Text,
                       version: Option<int>, room: nat): Outcome
    decreases room, 1
  {
    var key := KeyOf(app, user, session, filename);
    if key.None? then Invalid
    else
      var k := key.value;
      var versions := Versions(view, k);
      if version.None? && versions == [] then Nothing
      else
        var v := version.Or(|versions| - 1);
        if v < 0 && IsFolder(view, VersionPath(k, v)) then NotAFile
        else if !Stored(view, k, v) then Nothing
        else Resolve(view, rules, app, user, session, versions[v].content, room)
  }

  ghost function Resolve(view: View, rules: Rules, app: Text, user: Text, session: Option<Text>, content: Content,
                         room: nat): Outcome
    decreases room, 0
  {
    if !(content.FileContent? && IsRef(content.uri)) then Loaded(Restored(content))
    else
      var target := Target(rules, app, user, session, content.uri);
      if target.None? then Invalid
      else if room == 0 then TooDeep
      else
        var r := target.value;
        Fetch(view, rules, r.app, r.user, r.session, r.filename, Some(r.version), room - 1)
  }

  // --- The service -----------------------------------------------------------------------------------------

  /** The names directly under a directory, in no particular order. */
  function Children(files: map<Path, Envelope>, dir: Path): set<Text> {
    set p | p in files && dir < p :: p[|dir|]
  }

  lemma NumberedFile(files: map<Path, Envelope>, view: View, k: Key, p: Path)
    requires Represents(files, view) && p in files && Dir(k) < p && IsNumeral(p[|Dir(k)|])
    ensures exists v: nat :: Stored(view, k, v) && p[|Dir(k)|] == IntText(v)
  {
    hide IsPlain, VersionPath, Dir, Filed;
    assert IsVersionFile(view, p);
    var j, v: nat :| Stored(view, j, v) && p == VersionPath(j, v);
    assert IsKey(j);
    ChildOfDir(j, v, k);
  }

  /** Every version of an artifact, and nothing else, lies in its directory under a number. */
  lemma NumberedChildren(files: map<Path, Envelope>, view: View, k: Key, name: Text)
    requires Represents(files, view)
    ensures name in Children(files, Dir(k)) && IsNumeral(name) <==> exists v: nat :: Stored(view, k, v) && name == IntText(v)
  {
    hide IsNumeral, VersionPath, Dir, Accounted, KeysOk;
    if name in Children(files, Dir(k)) && IsNumeral(name) {
      hide Represents;
      var p :| p in files && Dir(k) < p && p[|Dir(k)|] == name;
      NumberedFile(files, view, k, p);
    }
    if v: nat :| Stored(view, k, v) && name == IntText(v) {
      NumeralText(v);
      VersionChild(k, v);
      assert VersionPath(k, v) in files;
    }
  }

  lemma VersionChild(k: Key, v: int)
    ensures Dir(k) < VersionPath(k, v) && VersionPath(k, v)[|Dir(k)|] == IntText(v)
  {
  }

  class ArtifactService {
    const rules: Rules
    var files: map<Path, Envelope>
    ghost var view: View

    ghost predicate Valid()
      reads this
    {
      Represents(files, view) && forall uri :: rules.parse(uri).Some? ==> IsPlain(rules.parse(uri).value.filename)
    }

    constructor (rules: Rules)
      requires forall uri :: rules.parse(uri).Some? ==> IsPlain(rules.parse(uri).value.filename)
      ensures Valid() && this.rules == rules && view == map[]
    {
      this.rules, files, view := rules, map[], map[];
    }

    /** Every stored version number, unsorted. */
    method ListVersions(k: Key) returns (versions: seq<int>)
      requires Valid() && IsPlain(k.filename)
      ensures forall v :: v in versions <==> Stored(view, k, v)
    {
      hide Dir, IsPlain, Represents, IsNumeral;
      versions := [];
      var children := Children(files, Dir(k));
      ghost var done: set<Text> := {};
      while children != {}
        invariant children + done == Children(files, Dir(k))
        invariant forall v :: v in versions ==> Stored(view, k, v)
        invariant forall v: nat :: IntText(v) in done && Stored(view, k, v) ==> v in versions
        decreases |children|
      {
        var child :| child in children;
        children, done := children - {child}, done + {child};
        NumberedChildren(files, view, k, child);
        if IsNumeral(child) {
          ghost var v: nat :| Stored(view, k, v) && child == IntText(v);
          NumeralText(v);
          forall w: nat | IntText(w) == child ensures w == v { IntTextInjective(v, w); }
          versions := versions + [NatOf(child)];
        } else {
          forall w: nat ensures IntText(w) != child { NumeralText(w); }
        }
      }
      forall v | Stored(view, k, v) ensures v in versions {
        NumberedChildren(files, view, k, IntText(v));
        NumeralText(v);
      }
    }

    /** Stores a new version. It is numbered by how many there were, the artifact's versions grow by
        it, and every other artifact is as it was. */
    method SaveArtifact(app: Text, user: Text, session: Option<Text>, filename: Text, part: Part) returns (r: Option<nat>)
      requires Valid() && IsPlain(filename)
      modifies this
      ensures Valid()
      ensures var key := KeyOf(app, user, session, filename);
              var content := BuildContent(rules, app, user, session, part);
              if key.None? || content.None? then r == None && view == old(view)
              else
                var versions := old(Versions(view, key.value));
                r == Some(|versions|)
                && view == old(view)[key.value := versions + [Envelope(|versions|, content.value)]]
    {
      hide Represents, BuildContent, Dir;
      var key := KeyOf(app, user, session, filename);
      if key.None? { return None; }
      var k := key.value;
      var versions := ListVersions(k);
      var version := 0;
      if versions != [] {
        var largest := Max(versions);
        version := largest + 1;
      }
      NextVersion(view, k, versions, version);
      var content := BuildContent(rules, app, user, session, part);
      if content.None? { return None; }
      ghost var before := view;
      SavedRepresents(files, view, k, Envelope(version, content.value));
      files := files[VersionPath(k, version) := Envelope(version, content.value)];
      view := Saved(view, k, Envelope(version, content.value));
      return Some(version);
    }

    /** One version, or the last when none is named; a reference is loaded in turn. */
    method LoadArtifact(app: Text, user: Text, session: Option<Text>, filename: Text, version: Option<int>, room: nat)
      returns (outcome: Outcome)
      requires Valid() && IsPlain(filename)
      ensures outcome == Fetch(view, rules, app, user, session, filename, version, room)
      decreases room, 1
    {
      hide Represents, Dir, IsPlain, VersionPath, IsFolder, Resolve, KeyOf, Exists;
      var key := KeyOf(app, user, session, filename);
      if key.None? { return Invalid; }
      var k := key.value;
      var v: int;
      if version.None? {
        var versions := ListVersions(k);
        if versions == [] {
          NextVersion(view, k, versions, 0);
          return Nothing;
        }
        v := Max(versions);
        NextVersion(view, k, versions, v + 1);
      } else {
        v := version.value;
      }
      var path := VersionPath(k, v);
      VersionFile(files, view, k, v);
      FolderExists(files, view, k, v);
      if !Exists(files, path) { return Nothing; }
      if path !in files { return NotAFile; }
      outcome := PartFromEnvelope(app, user, session, files[path].content, room);
    }

    /** The part an envelope holds, or the part it refers to. */
    method PartFromEnvelope(app: Text, user: Text, session: Option<Text>, content: Content, room: nat)
      returns (outcome: Outcome)
      requires Valid()
      ensures outcome == Resolve(view, rules, app, user, session, content, room)
      decreases room, 0
    {
      hide Represents, IsPlain, Fetch, Restored, IsRef;
      if !(content.FileContent? && IsRef(content.uri)) { return Loaded(Restored(content)); }
      var target := Target(rules, app, user, session, content.uri);
      if target.None? { return Invalid; }
      if room == 0 { return TooDeep; }
      var r := target.value;
      outcome := LoadArtifact(r.app, r.user, r.session, r.filename, Some(r.version), room - 1);
    }

    /** Deletes every version of one artifact and nothing else. */
    method DeleteArtifact(app: Text, user: Text, session: Option<Text>, filename: Text) returns (ok: bool)
      requires Valid() && IsPlain(filename)
      modifies this
      ensures Valid()
      ensures var key := KeyOf(app, user, session, filename);
              ok == key.Some? && view == if key.Some? then Removed(old(view), key.value) else old(view)
    {
      hide Represents, Dir, IsPlain, VersionPath, Stored;
      var key := KeyOf(app, user, session, filename);
      if key.None? { return false; }
      var k := key.value;
      var versions := ListVersions(k);
      ghost var before := files;
      for i := 0 to |versions|
        invariant view == old(view) && files == before - PathsOf(k, versions[..i])
      {
        var path := VersionPath(k, versions[i]);
        if Exists(files, path) {
          files := files - {path};
        }
        assert versions[..i + 1] == versions[..i] + [versions[i]];
        OneMorePath(k, versions[..i], versions[i]);
      }
      assert versions[..|versions|] == versions;
      RemovedRepresents(before, view, k, versions);
      view := Removed(view, k);
      return true;
    }

    /** The filenames kept below a scope's directory. */
    method FilenamesUnder(app: Text, user: Text, place: Text) returns (filenames: set<Text>)
      requires Valid()
      ensures forall f :: f in filenames <==> Key(app, user, place, f) in view
    {
      hide Represents, Dir, IsPlain, VersionPath, IsNumeral;
      var scope := [app, user, place];
      filenames := {};
      var leaves := set p | p in files && scope <= p;
      ghost var done: set<Path> := {};
      while leaves != {}
        invariant leaves + done == set p | p in files && scope <= p
        invariant forall f :: f in filenames <==> exists v: nat :: VersionPath(Key(app, user, place, f), v) in done
        decreases |leaves|
      {
        var leaf :| leaf in leaves;
        ghost var j, w := LeafIs(files, view, app, user, place, leaf);
        leaves, done := leaves - {leaf}, done + {leaf};
        var parts := leaf[|scope|..];
        if |parts| >= 2 && IsNumeral(parts[|parts| - 1]) {
          filenames := filenames + {Join(parts[..|parts| - 1], SLASH)};
        }
        forall f, v: nat | VersionPath(Key(app, user, place, f), v) == leaf ensures f == j.filename && v == w {
          VersionPathInjective(Key(app, user, place, f), v, j, w);
        }
      }
      forall f ensures f in filenames <==> Key(app, user, place, f) in view {
        ScopeFiles(files, view, Key(app, user, place, f));
      }
    }

    /** The session's filenames and the user's, sorted and without repeats. */
    method ListArtifactKeys(app: Text, user: Text, session: Option<Text>) returns (r: Option<seq<Text>>)
      requires Valid()
      ensures r.None? <==> !IsSegment(app) || !IsSegment(user) || (session.Some? && !IsSegment(session.value))
      ensures r.Some? ==> StrictlySorted(r.value) && forall f :: f in r.value <==> Listed(view, app, user, session, f)
    {
      hide Represents;
      if !IsSegment(app) || !IsSegment(user) { return None; }
      var filenames: set<Text> := {};
      if session.Some? {
        if !IsSegment(session.value) { return None; }
        filenames := FilenamesUnder(app, user, session.value);
      }
      var shared := FilenamesUnder(app, user, USER);
      return Some(SortedKeys(filenames + shared));
    }
  }

  method Max(xs: seq<int>) returns (m: int)
    requires xs != []
    ensures m in xs && forall x :: x in xs ==> x <= m
  {
    m := xs[0];
    for i := 1 to |xs|
      invariant m in xs && forall j :: 0 <= j < i ==> xs[j] <= m
    {
      if xs[i] > m { m := xs[i]; }
    }
  }

  lemma NextVersion(view: View, k: Key, versions: seq<int>, next: int)
    requires forall v :: v in versions <==> Stored(view, k, v)
    requires if versions == [] then next == 0 else next - 1 in versions && forall v :: v in versions ==> v <= next - 1
    ensures next == |Versions(view, k)|
  {
    if Versions(view, k) != [] {
      assert Stored(view, k, |Versions(view, k)| - 1);
      assert |Versions(view, k)| - 1 in versions;
    } else {
      assert forall v :: !Stored(view, k, v);
    }
  }

  function Saved(view: View, k: Key, e: Envelope): View {
    view[k := Versions(view, k) + [e]]
  }

  lemma SavedFiled(files: map<Path, Envelope>, view: View, k: Key, e: Envelope)
    requires Filed(files, view) && e.version == |Versions(view, k)|
    ensures Filed(files[VersionPath(k, e.version) := e], Saved(view, k, e))
  {
    hide VersionPath;
    var files' := files[VersionPath(k, e.version) := e];
    var view' := Saved(view, k, e);
    forall j, v: nat | Stored(view', j, v)
      ensures VersionPath(j, v) in files' && files'[VersionPath(j, v)] == view'[j][v] && view'[j][v].version == v
    {
      if VersionPath(j, v) == VersionPath(k, e.version) {
        VersionPathInjective(j, v, k, e.version);
      } else {
        assert Stored(view, j, v);
      }
    }
  }

  lemma StillStored(view: View, view': View, p: Path)
    requires IsVersionFile(view, p)
    requires forall j, v: nat :: Stored(view, j, v) && VersionPath(j, v) == p ==> Stored(view', j, v)
    ensures IsVersionFile(view', p)
  {
    hide VersionPath, Stored;
    var j, v: nat :| Stored(view, j, v) && p == VersionPath(j, v);
    assert Stored(view', j, v);
  }

  lemma SavedAccounted(files: map<Path, Envelope>, view: View, k: Key, e: Envelope)
    requires Accounted(files, view) && e.version == |Versions(view, k)|
    ensures Accounted(files[VersionPath(k, e.version) := e], Saved(view, k, e))
  {
    hide VersionPath, IsVersionFile;
    var files' := files[VersionPath(k, e.version) := e];
    var view' := Saved(view, k, e);
    forall p | p in files' ensures IsVersionFile(view', p) {
      if p == VersionPath(k, e.version) {
        NewestStored(view, k, e);
      } else {
        StillStored(view, view', p);
      }
    }
  }

  lemma NewestStored(view: View, k: Key, e: Envelope)
    requires e.version == |Versions(view, k)|
    ensures IsVersionFile(Saved(view, k, e), VersionPath(k, e.version))
  {
    hide VersionPath;
    assert Stored(Saved(view, k, e), k, e.version);
  }

  lemma SavedRepresents(files: map<Path, Envelope>, view: View, k: Key, e: Envelope)
    requires Represents(files, view) && IsKey(k) && e.version == |Versions(view, k)|
    ensures Represents(files[VersionPath(k, e.version) := e], Saved(view, k, e))
  {
    hide Filed, Accounted, IsKey;
    SavedFiled(files, view, k, e);
    SavedAccounted(files, view, k, e);
  }

  // --- Loading: what the files say of one version -----------------------------------------------------------

  predicate Exists(files: map<Path, Envelope>, path: Path) {
    exists p :: p in files && path <= p
  }

  lemma VersionFile(files: map<Path, Envelope>, view: View, k: Key, v: int)
    requires Represents(files, view)
    ensures VersionPath(k, v) in files <==> Stored(view, k, v)
    ensures Stored(view, k, v) ==> files[VersionPath(k, v)] == view[k][v]
  {
    hide VersionPath, KeysOk;
    if VersionPath(k, v) in files {
      assert IsVersionFile(view, VersionPath(k, v));
      var j, w: nat :| Stored(view, j, w) && VersionPath(k, v) == VersionPath(j, w);
      VersionPathInjective(j, w, k, v);
    }
  }

  /** A path that exists without being a file leads to other artifacts, and only a negative number
      can name one. */
  lemma FolderExists(files: map<Path, Envelope>, view: View, k: Key, v: int)
    requires Represents(files, view)
    ensures Exists(files, VersionPath(k, v)) && VersionPath(k, v) !in files <==> v < 0 && IsFolder(view, VersionPath(k, v))
    ensures VersionPath(k, v) in files ==> Exists(files, VersionPath(k, v))
  {
    hide Dir, IsKey, VersionPath, Filed;
    var path := VersionPath(k, v);
    VersionFile(files, view, k, v);
    if Exists(files, path) && path !in files {
      var p :| p in files && path <= p;
      assert |path| == |p| ==> path == p;
      FileBelow(files, view, k, v, p);
    }
    if j :| v < 0 && j in view && path <= Dir(j) {
      FirstVersionFiled(files, view, j);
      VersionChild(j, 0);
    }
  }

  lemma FirstVersionFiled(files: map<Path, Envelope>, view: View, k: Key)
    requires Represents(files, view) && k in view
    ensures VersionPath(k, 0) in files
  {
    hide VersionPath, Accounted, IsKey;
    assert Stored(view, k, 0);
  }

  lemma FileBelow(files: map<Path, Envelope>, view: View, k: Key, v: int, p: Path)
    requires Represents(files, view) && p in files && VersionPath(k, v) < p
    ensures v < 0 && IsFolder(view, VersionPath(k, v))
  {
    hide IsPlain, Filed, Dir;
    assert IsVersionFile(view, p);
    var j, w: nat :| Stored(view, j, w) && p == VersionPath(j, w);
    assert IsKey(j);
    VersionChild(k, v);
    VersionChild(j, w);
    NumeralText(v);
    assert VersionPath(k, v) <= Dir(j);
    assert p[|Dir(k)|] == IntText(v);
    ChildOfDir(j, w, k);
  }

  // --- Deleting -------------------------------------------------------------------------------------------------

  function Removed(view: View, k: Key): View {
    view - {k}
  }

  function PathsOf(k: Key, versions: seq<int>): set<Path> {
    set v | v in versions :: VersionPath(k, v)
  }

  lemma OneMorePath(k: Key, versions: seq<int>, v: int)
    ensures PathsOf(k, versions + [v]) == PathsOf(k, versions) + {VersionPath(k, v)}
  {
    hide VersionPath;
  }

  lemma RemovedRepresents(files: map<Path, Envelope>, view: View, k: Key, versions: seq<int>)
    requires Represents(files, view) && forall v :: v in versions <==> Stored(view, k, v)
    ensures Represents(files - PathsOf(k, versions), Removed(view, k))
  {
    hide VersionPath, IsKey, IsVersionFile;
    var files' := files - PathsOf(k, versions);
    var view' := Removed(view, k);
    forall j, v: nat | Stored(view', j, v)
      ensures VersionPath(j, v) in files' && files'[VersionPath(j, v)] == view'[j][v] && view'[j][v].version == v
    {
      assert Stored(view, j, v);
      forall w | w in versions ensures VersionPath(k, w) != VersionPath(j, v) {
        if VersionPath(k, w) == VersionPath(j, v) { VersionPathInjective(k, w, j, v); }
      }
    }
    forall p | p in files' ensures IsVersionFile(view', p) {
      StillStored(view, view', p);
    }
  }

  // --- Listing ------------------------------------------------------------------------------------------------------

  lemma LeafIs(files: map<Path, Envelope>, view: View, app: Text, user: Text, place: Text, leaf: Path)
    returns (k: Key, v: nat)
    requires Represents(files, view) && leaf in files && [app, user, place] <= leaf
    ensures k == Key(app, user, place, k.filename) && Stored(view, k, v) && leaf == VersionPath(k, v)
    ensures var parts := leaf[3..];
            |parts| >= 2 && IsNumeral(parts[|parts| - 1]) && Join(parts[..|parts| - 1], SLASH) == k.filename
  {
    hide IsKey, Filed, Dir, Join;
    assert IsVersionFile(view, leaf);
    k, v :| Stored(view, k, v) && leaf == VersionPath(k, v);
    hide Accounted, KeysOk;
    NumeralText(v);
    JoinSplit(k.filename, SLASH);
    PathParts(k, v);
    var parts := leaf[3..];
    assert leaf[0] == app && leaf[1] == user && leaf[2] == place;
  }

  lemma PathParts(k: Key, v: int)
    ensures var path := VersionPath(k, v);
            && path[3..] == Split(k.filename, SLASH) + [IntText(v)]
            && path[0] == k.app && path[1] == k.user && path[2] == k.place
  {
  }

  lemma ScopeFiles(files: map<Path, Envelope>, view: View, k: Key)
    requires Represents(files, view)
    ensures (exists v: nat :: VersionPath(k, v) in files && [k.app, k.user, k.place] <= VersionPath(k, v)) <==> k in view
  {
    hide IsKey, Filed, Accounted;
    if v: nat :| VersionPath(k, v) in files { VersionFile(files, view, k, v); }
    if k in view { FirstVersionFiled(files, view, k); }
  }

  predicate Listed(view: View, app: Text, user: Text, session: Option<Text>, filename: Text) {
    Key(app, user, USER, filename) in view || (session.Some? && Key(app, user, session.value, filename) in view)
  }

  /** The artifacts a session can name: its own and the user's. */
  predicate Visible(view: View, app: Text, user: Text, session: Option<Text>, filename: Text) {
    var key := KeyOf(app, user, session, filename);
    key.Some? && key.value in view
  }

  /** The listing is of exactly the artifacts the session can name, unless a session called "user"
      kept files of its own: it is exact when and only when those are all the session's as well. */
  lemma ListsVisible(files: map<Path, Envelope>, view: View, app: Text, user: Text, session: Option<Text>)
    requires Represents(files, view) && IsSegment(app) && IsSegment(user) && (session.Some? ==> IsSegment(session.value))
    ensures (forall f :: Listed(view, app, user, session, f) <==> Visible(view, app, user, session, f))
       <==> (forall f :: Key(app, user, USER, f) in view && !InUserNamespace(f)
                         ==> session.Some? && Key(app, user, session.value, f) in view)
  {
    hide Filed, Accounted, InUserNamespace, IsSegment, IsPlain;
    assert KeysOk(view);
    forall f ensures Visible(view, app, user, session, f) ==> Listed(view, app, user, session, f) {}
    forall f | Listed(view, app, user, session, f) && !Visible(view, app, user, session, f)
      ensures Key(app, user, USER, f) in view && !InUserNamespace(f)
              && !(session.Some? && Key(app, user, session.value, f) in view)
    {
      assert session.Some? && Key(app, user, session.value, f) in view ==> IsKey(Key(app, user, session.value, f));
    }
    forall f | Key(app, user, USER, f) in view && !InUserNamespace(f)
               && !(session.Some? && Key(app, user, session.value, f) in view)
      ensures Listed(view, app, user, session, f) && !Visible(view, app, user, session, f) {}
  }

  /** It happens: what a session called "user" saves is listed for every other session, which cannot
      load it. */
  lemma UserSessionShows(app: Text, user: Text, session: Text, filename: Text, content: Content)
    requires IsSegment(app) && IsSegment(user) && IsSegment(session) && session != USER
    requires IsPlain(filename) && !InUserNamespace(filename)
    ensures var k := Key(app, user, USER, filename);
            var view := Saved(map[], k, Envelope(0, content));
            && KeyOf(app, user, Some(USER), filename) == Some(k)
            && Represents(map[][VersionPath(k, 0) := Envelope(0, content)], view)
            && Listed(view, app, user, Some(session), filename)
            && !Visible(view, app, user, Some(session), filename)
  {
    hide IsPlain, VersionPath, InUserNamespace, Represents;
    var k := Key(app, user, USER, filename);
    NothingStored();
    SavedRepresents(map[], map[], k, Envelope(0, content));
  }

  lemma NothingStored()
    ensures Represents(map[], map[])
  {
  }
}
