/** Which artifacts a caller can reach (`app/shared/artifacts.py`): what is stored of a part, which references
    are refused and which are followed, said by the rules for references themselves. */
module Scoping {
  import opened Texts
  import opened Artifacts
  import opened References

  // --- Naming an artifact -------------------------------------------------------------------------------

  /** A call that names an artifact is refused exactly when a segment of its path is unsafe, or a name outside
      the user's namespace comes without a session. A name in it means the same artifact from every session. */
  lemma KeyOfIs(app: Text, user: Text, session: Option<Text>, filename: Text)
    ensures var shared := At(filename, 0, Ascii("user:"));
            && (KeyOf(app, user, session, filename).None?
                <==> !IsSegment(app) || !IsSegment(user) || (!shared && (session.None? || !IsSegment(session.value))))
            && (KeyOf(app, user, session, filename).Some? ==>
                  var k := KeyOf(app, user, session, filename).value;
                  && k.app == app && k.user == user && k.filename == filename
                  && k.place == (if shared then Ascii("user") else session.value))
  {
    hide IsSegment, Ascii;
  }

  // --- Storing ----------------------------------------------------------------------------------------------

  /** The rules read the text as a reference that this caller may follow. */
  ghost predicate MayFollow(rules: Rules, app: Text, user: Text, session: Option<Text>, uri: Text, r: Ref) {
    rules.parse(uri) == Some(r) && rules.inScope(app, user, session, r)
  }

  lemma TargetIs(rules: Rules, app: Text, user: Text, session: Option<Text>, uri: Text, r: Ref)
    ensures Target(rules, app, user, session, uri) == Some(r) <==> MayFollow(rules, app, user, session, uri, r)
  {
  }

  /** What is stored of a part: its bytes before its text before its file. A file is stored by its URI; a
      reference exactly when the caller may follow it. Nothing else can be stored. */
  lemma ContentIs(rules: Rules, app: Text, user: Text, session: Option<Text>, part: Part, content: Content)
    ensures BuildContent(rules, app, user, session, part) == Some(content)
       <==> match part
            case Part(Some(blob), _, _) => content == InlineContent(blob.data.Or([]), blob.mime, blob.displayName.Or([]))
            case Part(None, Some(text), _) => content == TextContent(text)
            case Part(None, None, Some(file)) =>
              file.uri.Some? && file.uri.value != [] && content == FileContent(file.uri.value, file.mime)
              && (At(file.uri.value, 0, Ascii("artifact://"))
                  ==> exists r :: MayFollow(rules, app, user, session, file.uri.value, r))
            case _ => false
  {
    hide Ascii, Target;
    if part.file.Some? && part.file.value.uri.Some? {
      var uri := part.file.value.uri.value;
      if r :| MayFollow(rules, app, user, session, uri, r) { TargetIs(rules, app, user, session, uri, r); }
      if Target(rules, app, user, session, uri).Some? {
        TargetIs(rules, app, user, session, uri, Target(rules, app, user, session, uri).value);
      }
    }
  }

  /** What comes back of stored bytes, text and files: bytes without a type get the default one, and a blank
      display name is none. */
  lemma RestoredIs(data: seq<Byte>, mime: Option<Text>, displayName: Text, text: Text, uri: Text)
    ensures Restored(TextContent(text)) == Part(None, Some(text), None)
    ensures Restored(FileContent(uri, mime)) == Part(None, None, Some(FileData(Some(uri), mime)))
    ensures var part := Restored(InlineContent(data, mime, displayName));
            && part.text == None && part.file == None && part.inline.Some? && part.inline.value.data == Some(data)
            && part.inline.value.mime == (if mime.Some? && mime.value != [] then mime else Some(Ascii("application/octet-stream")))
            && part.inline.value.displayName == (if displayName == [] then None else Some(displayName))
  {
    hide Ascii;
  }

  // --- Loading ----------------------------------------------------------------------------------------------

  /** The version stored under this name is this content. */
  ghost predicate Holding(view: View, r: Ref, content: Content) {
    var key := KeyOf(r.app, r.user, r.session, r.filename);
    key.Some? && key.value in view && r.version < |view[key.value]| && view[key.value][r.version].content == content
  }

  /** The version stored under `r` is a reference to `next` that whoever asked for `r` may follow. */
  ghost predicate LeadsTo(view: View, rules: Rules, r: Ref, next: Ref) {
    exists uri, mime :: Holding(view, r, FileContent(uri, mime)) && At(uri, 0, Ascii("artifact://"))
                        && MayFollow(rules, r.app, r.user, r.session, uri, next)
  }

  /** Where the way ends: at no such artifact, at no such version, at a part of its own, or at a reference that
      is none or may not be followed. */
  ghost predicate EndsIn(view: View, rules: Rules, r: Ref, outcome: Outcome) {
    match outcome
    case Loaded(part) =>
      exists content :: Holding(view, r, content) && part == Restored(content)
                        && !(content.FileContent? && At(content.uri, 0, Ascii("artifact://")))
    case Nothing => KeyOf(r.app, r.user, r.session, r.filename).Some? && !exists content :: Holding(view, r, content)
    case Invalid =>
      KeyOf(r.app, r.user, r.session, r.filename).None?
      || exists uri, mime :: Holding(view, r, FileContent(uri, mime)) && At(uri, 0, Ascii("artifact://"))
                             && !exists next :: MayFollow(rules, r.app, r.user, r.session, uri, next)
    case _ => false
  }

  ghost predicate IsWay(view: View, rules: Rules, p: seq<Ref>, r: Ref) {
    p != [] && p[0] == r && forall i :: 0 <= i < |p| - 1 ==> LeadsTo(view, rules, p[i], p[i + 1])
  }

  /** What a load of a named version finds, when it does not run out of room: exactly what stands at the end of
      the way of references that starts there, each of which the one before it may follow. */
  lemma LoadsAlongTheWay(view: View, rules: Rules, r: Ref, room: nat, outcome: Outcome)
    requires outcome != TooDeep
    ensures FetchRef(view, rules, r, room) == outcome
       <==> exists p :: IsWay(view, rules, p, r) && |p| <= room + 1 && EndsIn(view, rules, p[|p| - 1], outcome)
  {
    hide FetchRef, EndsIn, LeadsTo;
    if FetchRef(view, rules, r, room) == outcome {
      var p := WayOf(view, rules, r, room);
    }
    if p :| IsWay(view, rules, p, r) && |p| <= room + 1 && EndsIn(view, rules, p[|p| - 1], outcome) {
      WayLoads(view, rules, p, r, room, outcome);
    }
  }

  /** One hop. */
  lemma FirstHop(view: View, rules: Rules, r: Ref, room: nat)
    ensures match Hop(view, rules, r)
            case None => FetchRef(view, rules, r, room) != TooDeep && EndsIn(view, rules, r, FetchRef(view, rules, r, room))
                         && forall next :: !LeadsTo(view, rules, r, next)
            case Some(next) => (forall other :: LeadsTo(view, rules, r, other) <==> other == next)
                               && (forall outcome :: !EndsIn(view, rules, r, outcome))
                               && FetchRef(view, rules, r, room)
                                  == if room == 0 then TooDeep else FetchRef(view, rules, next, room - 1)
  {
    hide KeyOf, Restored, Target, IsFolder, Ascii, MayFollow;
    var key := KeyOf(r.app, r.user, r.session, r.filename);
    if key.Some? && Stored(view, key.value, r.version) {
      var content := view[key.value][r.version].content;
      assert Holding(view, r, content);
      assert FetchRef(view, rules, r, room) == Resolve(view, rules, r.app, r.user, r.session, content, room);
      if content.FileContent? && IsRef(content.uri) {
        forall next ensures Target(rules, r.app, r.user, r.session, content.uri) == Some(next)
                       <==> MayFollow(rules, r.app, r.user, r.session, content.uri, next) {
          TargetIs(rules, r.app, r.user, r.session, content.uri, next);
        }
        if Hop(view, rules, r).Some? {
          var next := Hop(view, rules, r).value;
          assert MayFollow(rules, r.app, r.user, r.session, content.uri, next);
        }
      }
    }
  }

  /** Only one thing stands at the end of a way. */
  lemma EndsInOne(view: View, rules: Rules, r: Ref, room: nat, outcome: Outcome)
    requires EndsIn(view, rules, r, outcome)
    ensures FetchRef(view, rules, r, room) == outcome
  {
    hide FetchRef, Hop;
    FirstHop(view, rules, r, room);
    EndsAgree(view, rules, r, outcome, FetchRef(view, rules, r, room));
  }

  lemma EndsAgree(view: View, rules: Rules, r: Ref, a: Outcome, b: Outcome)
    requires EndsIn(view, rules, r, a) && EndsIn(view, rules, r, b)
    ensures a == b
  {
    hide KeyOf, Restored, Ascii, MayFollow;
  }

  lemma {:induction false} WayOf(view: View, rules: Rules, r: Ref, room: nat) returns (p: seq<Ref>)
    requires FetchRef(view, rules, r, room) != TooDeep
    ensures IsWay(view, rules, p, r) && |p| <= room + 1 && EndsIn(view, rules, p[|p| - 1], FetchRef(view, rules, r, room))
    decreases room
  {
    hide FetchRef, Hop, EndsIn, LeadsTo;
    FirstHop(view, rules, r, room);
    p := [r];
    if Hop(view, rules, r).Some? {
      var rest := WayOf(view, rules, Hop(view, rules, r).value, room - 1);
      p := [r] + rest;
    }
  }

  lemma {:induction false} WayLoads(view: View, rules: Rules, p: seq<Ref>, r: Ref, room: nat, outcome: Outcome)
    requires IsWay(view, rules, p, r) && |p| <= room + 1 && EndsIn(view, rules, p[|p| - 1], outcome)
    ensures FetchRef(view, rules, r, room) == outcome
    decreases |p|
  {
    hide FetchRef, Hop, EndsIn, LeadsTo;
    FirstHop(view, rules, r, room);
    if |p| == 1 {
      EndsInOne(view, rules, r, room, outcome);
    } else {
      assert LeadsTo(view, rules, p[0], p[1]);
      WayLoads(view, rules, p[1..], p[1], room - 1, outcome);
    }
  }

  /** A load that names no version is one of the last, and there is none without a version. A version that
      is not there is not found; only a number below zero can name a directory. */
  lemma VersionLoaded(view: View, rules: Rules, app: Text, user: Text, session: Option<Text>, filename: Text,
                      version: Option<int>, room: nat)
    requires KeyOf(app, user, session, filename).Some?
    ensures var k := KeyOf(app, user, session, filename).value; var n := |Versions(view, k)|;
            Fetch(view, rules, app, user, session, filename, version, room)
            == match version
               case None => if n == 0 then Nothing else FetchRef(view, rules, Ref(app, user, session, filename, n - 1), room)
               case Some(v) => if v >= 0 then FetchRef(view, rules, Ref(app, user, session, filename, v), room)
                               else if exists j :: j in view && VersionPath(k, v) <= Dir(j) then NotAFile else Nothing
  {
    hide KeyOf, Resolve, VersionPath, Dir;
  }

  /** A reference outside a caller's scope, or that does not parse, is of no use to them: no save stores it, and
      if their session holds it all the same, loading it is refused, whatever is stored and however much room
      there is. */
  lemma OutOfScopeRefused(view: View, rules: Rules, app: Text, user: Text, session: Option<Text>, uri: Text, mime: Option<Text>,
                          filename: Text, version: nat, room: nat)
    requires At(uri, 0, Ascii("artifact://")) && forall r :: !MayFollow(rules, app, user, session, uri, r)
    ensures BuildContent(rules, app, user, session, Part(None, None, Some(FileData(Some(uri), mime)))) == None
    ensures Holding(view, Ref(app, user, session, filename, version), FileContent(uri, mime))
            ==> Fetch(view, rules, app, user, session, filename, Some(version), room) == Invalid
    ensures Resolve(view, rules, app, user, session, FileContent(uri, mime), room) == Invalid
  {
    hide Ascii, KeyOf;
    var part := Part(None, None, Some(FileData(Some(uri), mime)));
    forall content ensures BuildContent(rules, app, user, session, part) != Some(content) {
      ContentIs(rules, app, user, session, part, content);
    }
    forall r ensures Target(rules, app, user, session, uri) != Some(r) {
      TargetIs(rules, app, user, session, uri, r);
    }
  }

  /** One inside it is followed: loading it is loading what it names, in the name of whom it names. */
  lemma InScopeFollowed(view: View, rules: Rules, app: Text, user: Text, session: Option<Text>, uri: Text,
                        mime: Option<Text>, r: Ref, room: nat)
    requires At(uri, 0, Ascii("artifact://")) && MayFollow(rules, app, user, session, uri, r)
    ensures BuildContent(rules, app, user, session, Part(None, None, Some(FileData(Some(uri), mime))))
         == Some(FileContent(uri, mime))
    ensures Resolve(view, rules, app, user, session, FileContent(uri, mime), room + 1)
         == Fetch(view, rules, r.app, r.user, r.session, r.filename, Some(r.version), room)
  {
    hide Ascii, Fetch;
    TargetIs(rules, app, user, session, uri, r);
    ContentIs(rules, app, user, session, Part(None, None, Some(FileData(Some(uri), mime))), FileContent(uri, mime));
  }
}
