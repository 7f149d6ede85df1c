/** Choosing the latest model from a catalog's ids (`app/shared/model_selection.py`): parsing by
    expressions, and one pass that keeps the best so far. */
module ModelSelection {
  import opened Texts

  // --- Python's order on tuples ---------------------------------------------------------------------

  /** `a < b` for tuples of ints. */
  predicate Less(a: seq<int>, b: seq<int>) {
    b != [] && (a == [] || a[0] < b[0] || (a[0] == b[0] && Less(a[1..], b[1..])))
  }

  /** A sort key: a tuple whose elements are themselves ordered, an int or a bool standing as a tuple
      of one. */
  type Key = seq<seq<int>>

  /** `a < b` for keys: by the first element that differs. */
  predicate KeyLess(a: Key, b: Key) {
    b != [] && (a == [] || Less(a[0], b[0]) || (a[0] == b[0] && KeyLess(a[1..], b[1..])))
  }

  lemma {:induction false} LessTotal(a: seq<int>, b: seq<int>)
    ensures Less(a, b) || Less(b, a) || a == b
    ensures !(Less(a, b) && Less(b, a)) && !Less(a, a)
    decreases |a|
  {
    if a != [] {
      LessTotal(a[1..], a[1..]);
      if b != [] {
        LessTotal(a[1..], b[1..]);
        assert a == [a[0]] + a[1..] && b == [b[0]] + b[1..];
      }
    }
  }

  lemma {:induction false} LessTransitive(a: seq<int>, b: seq<int>, c: seq<int>)
    requires Less(a, b) && Less(b, c)
    ensures Less(a, c)
    decreases |a|
  {
    if a != [] && a[0] == b[0] == c[0] { LessTransitive(a[1..], b[1..], c[1..]); }
  }

  /** The order on keys is total and strict. */
  lemma {:induction false} KeyLessTotal(a: Key, b: Key)
    ensures KeyLess(a, b) || KeyLess(b, a) || a == b
    ensures !(KeyLess(a, b) && KeyLess(b, a)) && !KeyLess(a, a)
    decreases |a|
  {
    hide Less;
    if a != [] {
      KeyLessTotal(a[1..], a[1..]);
      LessTotal(a[0], a[0]);
      if b != [] {
        KeyLessTotal(a[1..], b[1..]);
        LessTotal(a[0], b[0]);
        assert a == [a[0]] + a[1..] && b == [b[0]] + b[1..];
      }
    }
  }

  lemma {:induction false} KeyLessTransitive(a: Key, b: Key, c: Key)
    requires KeyLess(a, b) && KeyLess(b, c)
    ensures KeyLess(a, c)
    decreases |a|
  {
    hide Less;
    if a != [] {
      if Less(a[0], b[0]) && Less(b[0], c[0]) {
        LessTransitive(a[0], b[0], c[0]);
      } else if a[0] == b[0] == c[0] {
        KeyLessTransitive(a[1..], b[1..], c[1..]);
      }
    }
  }

  /** Where two tuples part: at the first number that differs, or where the shorter one ends. */
  ghost predicate LessAt(a: seq<int>, b: seq<int>, i: nat) {
    i <= |a| && i < |b| && a[..i] == b[..i] && (i == |a| || a[i] < b[i])
  }

  lemma {:induction false} LessIs(a: seq<int>, b: seq<int>)
    ensures Less(a, b) <==> exists i: nat :: LessAt(a, b, i)
    decreases |a|
  {
    if Less(a, b) {
      if a == [] || a[0] < b[0] {
        assert LessAt(a, b, 0);
      } else {
        LessIs(a[1..], b[1..]);
        var i: nat :| LessAt(a[1..], b[1..], i);
        assert a[..i + 1] == [a[0]] + a[1..][..i] && b[..i + 1] == [b[0]] + b[1..][..i];
        assert LessAt(a, b, i + 1);
      }
    }
    if i: nat :| LessAt(a, b, i) {
      if i > 0 {
        assert a[0] == a[..i][0] == b[..i][0] == b[0];
        assert a[1..][..i - 1] == a[..i][1..] && b[1..][..i - 1] == b[..i][1..];
        assert LessAt(a[1..], b[1..], i - 1);
        LessIs(a[1..], b[1..]);
      }
    }
  }

  // --- Reading ids ------------------------------------------------------------------------------------

  const GEMINI: Text := Ascii("gemini-")
  const FLASH_LITE_FAMILY: Text := Ascii("flash-lite")
  const FLASH: Text := Ascii("flash")
  const LITE: Text := Ascii("lite")
  const PRO: Text := Ascii("pro")
  const PREVIEW: Text := Ascii("preview")
  const EXP: Text := Ascii("exp")

  /** One numeral, or two with a dot between. */
  predicate IsVersion(t: Text) {
    var parts := Split(t, DOT);
    |parts| <= 2 && forall p :: p in parts ==> IsNumeral(p)
  }

  /** What the id pattern captures: the version and the remainder. A final newline is passed over,
      and no other newline is allowed. */
  function Captured(id: Text): Option<(Text, Text)> {
    if !At(id, 0, GEMINI) then None
    else
      var parts := Split(id[|GEMINI|..], MINUS);
      if |parts| == 1 || !IsVersion(parts[0]) then None
      else
        var rest := Join(parts[1..], MINUS);
        var body := if rest != [] && rest[|rest| - 1] == NEWLINE then rest[..|rest| - 1] else rest;
        if body == [] || NEWLINE in body then None else Some((parts[0], body))
  }

  lemma VersionPlain(t: Text)
    requires IsVersion(t)
    ensures MINUS !in t
  {
    var parts := Split(t, DOT);
    JoinSplit(t, DOT);
    if |parts| == 2 { assert t == parts[0] + [DOT] + Join(parts[1..], DOT) && parts[1] in parts; }
    assert parts[0] in parts;
  }

  /** The pattern by itself: "gemini-", a version, "-", and something without newlines up to the end
      or up to a final newline. */
  predicate Matches(id: Text, version: Text, body: Text) {
    IsVersion(version) && body != [] && NEWLINE !in body
    && (id == GEMINI + version + [MINUS] + body || id == GEMINI + version + [MINUS] + body + [NEWLINE])
  }

  /** Everything after the version and its dash. */
  function Rest(id: Text): Text {
    if At(id, 0, GEMINI) then Join(Split(id[|GEMINI|..], MINUS)[1..], MINUS) else []
  }

  lemma SplitAgain(version: Text, rest: Text)
    requires MINUS !in version
    ensures var id := GEMINI + version + [MINUS] + rest;
            At(id, 0, GEMINI) && Split(id[|GEMINI|..], MINUS) == [version] + Split(rest, MINUS) && Rest(id) == rest
  {
    var id := GEMINI + version + [MINUS] + rest;
    var tail := version + [MINUS] + rest;
    assert id == GEMINI + tail;
    AtConcat(id, 0, GEMINI, tail);
    AtSlice(id, 0, id);
    assert id[|GEMINI|..] == tail;
    SplitPrefix(version, rest, MINUS);
    JoinSplit(rest, MINUS);
    hide Split, Join;
    assert ([version] + Split(rest, MINUS))[1..] == Split(rest, MINUS);
  }

  lemma CapturedParts(id: Text)
    requires Captured(id).Some?
    ensures id == GEMINI + Captured(id).value.0 + [MINUS] + Rest(id)
  {
    hide IsVersion;
    AtSlice(id, 0, GEMINI);
    var tail := id[|GEMINI|..];
    JoinSplit(tail, MINUS);
    assert id == GEMINI + tail;
  }

  /** Reading an id finds the one way the pattern matches it, if there is one. */
  lemma CapturedMatches(id: Text, version: Text, body: Text)
    ensures Captured(id) == Some((version, body)) <==> Matches(id, version, body)
  {
    hide IsVersion, Split, Join, At;
    if Matches(id, version, body) {
      var rest := if id == GEMINI + version + [MINUS] + body then body else body + [NEWLINE];
      assert id == GEMINI + version + [MINUS] + rest;
      VersionPlain(version);
      SplitAgain(version, rest);
      assert rest != body ==> rest[..|rest| - 1] == body;
    }
    if Captured(id) == Some((version, body)) {
      CapturedParts(id);
      var rest := Rest(id);
      assert rest[|rest| - 1] == NEWLINE ==> rest == rest[..|rest| - 1] + [NEWLINE];
      assert GEMINI + version + [MINUS] + (body + [NEWLINE]) == GEMINI + version + [MINUS] + body + [NEWLINE];
    }
  }

  function Numbers(tokens: seq<Text>): seq<int> {
    if tokens == [] then []
    else (if IsNumeral(tokens[0]) then [NatOf(tokens[0])] else []) + Numbers(tokens[1..])
  }

  function Parts(version: Text): seq<int> {
    Numbers(Split(version, DOT))
  }

  /** The numbers come in the order of the tokens: one for each numeral, none for the others. */
  lemma {:induction false} NumbersInOrder(a: seq<Text>, b: seq<Text>, token: Text)
    ensures Numbers(a + b) == Numbers(a) + Numbers(b)
    ensures Numbers([token]) == if IsNumeral(token) then [NatOf(token)] else []
    decreases |a|
  {
    hide IsNumeral, NatOf;
    assert [token][1..] == [] && Numbers([]) == [];
    if a == [] {
      assert a + b == b;
    } else {
      NumbersInOrder(a[1..], b, token);
      assert (a + b)[1..] == a[1..] + b;
    }
  }

  /** A version is one numeral or two with a dot between, and stands for their numbers. */
  lemma VersionIs(t: Text)
    ensures IsVersion(t) <==> IsNumeral(t) || exists a, b :: IsNumeral(a) && IsNumeral(b) && t == a + [DOT] + b
    ensures IsNumeral(t) ==> Parts(t) == [NatOf(t)]
  {
    hide NatOf;
    if IsNumeral(t) { OneNumeral(t); }
    if a, b :| IsNumeral(a) && IsNumeral(b) && t == a + [DOT] + b { TwoNumerals(a, b); }
    if IsVersion(t) { VersionParts(t); }
  }

  lemma NoDot(t: Text)
    requires IsNumeral(t)
    ensures DOT !in t
  {
  }

  lemma OneNumeral(t: Text)
    requires IsNumeral(t)
    ensures IsVersion(t) && Parts(t) == [NatOf(t)]
  {
    hide NatOf, IsNumeral;
    NoDot(t);
    SplitPrefix(t, [], DOT);
    NumbersInOrder([], [], t);
  }

  lemma TwoNumerals(a: Text, b: Text)
    requires IsNumeral(a) && IsNumeral(b)
    ensures IsVersion(a + [DOT] + b) && Parts(a + [DOT] + b) == [NatOf(a), NatOf(b)]
  {
    hide NatOf, IsNumeral;
    NoDot(a);
    NoDot(b);
    SplitPrefix(a, b, DOT);
    SplitPrefix(b, [], DOT);
    assert [a] + [b] == [a, b];
    NumbersInOrder([a], [b], a);
    NumbersInOrder([], [], b);
  }

  lemma VersionParts(t: Text)
    requires IsVersion(t)
    ensures IsNumeral(t) || exists a, b :: IsNumeral(a) && IsNumeral(b) && t == a + [DOT] + b
  {
    hide IsNumeral;
    var parts := Split(t, DOT);
    JoinSplit(t, DOT);
    assert parts[0] in parts;
    if |parts| == 2 {
      assert parts[1] in parts && parts[1..] == [parts[1]];
      assert t == parts[0] + [DOT] + parts[1];
    }
  }

  datatype Model = Model(version: seq<int>, family: Text, isPreview: bool, isPlain: bool, numbers: seq<int>)

  predicate IsPreviewMarker(token: Text) {
    token == PREVIEW || token == EXP
  }

  /** `_classify_model`. */
  function Classify(id: Text): Option<Model> {
    var captured := Captured(id);
    if captured.None? then None
    else
      var tokens := Split(captured.value.1, MINUS);
      var (family, extra) :=
        if |tokens| >= 2 && tokens[0] == FLASH && tokens[1] == LITE then (FLASH_LITE_FAMILY, tokens[2..])
        else if tokens[0] == FLASH then (FLASH, tokens[1..])
        else if tokens[0] == PRO then (PRO, tokens[1..])
        else ([], []);
      if family == [] || (extra != [] && !IsNumeral(extra[0]) && !IsPreviewMarker(extra[0])) then None
      else
        Some(Model(Parts(captured.value.0), family, extra != [] && IsPreviewMarker(extra[0]), extra == [], Numbers(extra)))
  }

  /** The tokens a family's name is spelled with. */
  function FamilyTokens(family: Text): seq<Text> {
    if family == FLASH_LITE_FAMILY then [FLASH, LITE] else [family]
  }

  /** An id of a version, a family and more tokens. */
  function ModelId(version: Text, family: Text, extra: seq<Text>): Text {
    GEMINI + version + [MINUS] + Join(FamilyTokens(family) + extra, MINUS)
  }

  predicate IsToken(token: Text) {
    MINUS !in token && NEWLINE !in token
  }

  lemma FamilyNames()
    ensures FLASH != PRO && FLASH_LITE_FAMILY != FLASH && FLASH_LITE_FAMILY != PRO
    ensures IsToken(FLASH) && IsToken(LITE) && IsToken(PRO) && FLASH != [] && PRO != []
  {
    assert FLASH[0] != PRO[0] && FLASH_LITE_FAMILY[0] != PRO[0] && |FLASH_LITE_FAMILY| != |FLASH|;
  }

  lemma {:induction false} JoinTokens(tokens: seq<Text>)
    requires tokens != [] && tokens[0] != [] && forall t :: t in tokens ==> IsToken(t)
    ensures Join(tokens, MINUS) != [] && NEWLINE !in Join(tokens, MINUS)
    decreases |tokens|
  {
    JoinNoNewline(tokens);
  }

  lemma {:induction false} JoinNoNewline(tokens: seq<Text>)
    requires forall t :: t in tokens ==> IsToken(t)
    ensures NEWLINE !in Join(tokens, MINUS)
    decreases |tokens|
  {
    if |tokens| > 0 {
      assert IsToken(tokens[0]);
      if |tokens| > 1 { JoinNoNewline(tokens[1..]); }
    }
  }

  /** An id of a known family is read as its version, its family and what follows: a numbered
      release, a preview or the bare name. One followed by anything else is a specialised variant,
      and is skipped. */
  lemma ClassifySpelled(version: Text, family: Text, extra: seq<Text>)
    requires IsVersion(version) && (family == FLASH_LITE_FAMILY || family == FLASH || family == PRO)
    requires (forall t :: t in extra ==> IsToken(t)) && !(family == FLASH && extra != [] && extra[0] == LITE)
    ensures var marked := extra != [] && (extra[0] == Ascii("preview") || extra[0] == Ascii("exp"));
            Classify(ModelId(version, family, extra)) ==
            if extra == [] || IsNumeral(extra[0]) || marked
            then Some(Model(Parts(version), family, marked, extra == [], Numbers(extra)))
            else None
  {
    hide IsVersion, Captured, Split, Join, Numbers, Parts, IsToken;
    FamilyNames();
    var tokens := FamilyTokens(family) + extra;
    assert forall t :: t in tokens ==> IsToken(t);
    JoinTokens(tokens);
    CapturedMatches(ModelId(version, family, extra), version, Join(tokens, MINUS));
    TokensSplit(tokens);
    assert tokens[|FamilyTokens(family)|..] == extra;
  }

  /** And no other id is read as a model: one that is, is spelled so, up to a final newline. */
  lemma ClassifiedSpelled(id: Text) returns (version: Text, family: Text, extra: seq<Text>)
    requires Classify(id).Some?
    ensures IsVersion(version) && (family == Ascii("flash-lite") || family == Ascii("flash") || family == Ascii("pro"))
    ensures id == ModelId(version, family, extra) || id == ModelId(version, family, extra) + [NEWLINE]
    ensures Classify(id).value.version == Parts(version) && Classify(id).value.family == family
  {
    hide IsVersion, Captured, Split, Join, Numbers, Parts, IsNumeral;
    version, family := Captured(id).value.0, Classify(id).value.family;
    var body := Captured(id).value.1;
    CapturedMatches(id, version, body);
    FamilyNames();
    JoinSplit(body, MINUS);
    var tokens := Split(body, MINUS);
    extra := tokens[|FamilyTokens(family)|..];
    assert tokens == FamilyTokens(family) + extra;
  }

  lemma TokensSplit(tokens: seq<Text>)
    requires tokens != [] && forall t :: t in tokens ==> IsToken(t)
    ensures Split(Join(tokens, MINUS), MINUS) == tokens
  {
    SplitJoin(tokens, MINUS);
  }

  function Flag(b: bool): seq<int> {
    [if b then 1 else 0]
  }

  function ModelKey(m: Model): Key {
    [m.version, Flag(!m.isPreview), Flag(m.isPlain), m.numbers]
  }

  /** Later means: a higher version; then a stable release before a preview; then the bare family
      name before a numbered release; then the higher numbers. */
  lemma LaterModel(a: Model, b: Model)
    ensures KeyLess(ModelKey(a), ModelKey(b))
       <==> Less(a.version, b.version)
            || (a.version == b.version
                && ((a.isPreview && !b.isPreview)
                    || (a.isPreview == b.isPreview
                        && ((!a.isPlain && b.isPlain) || (a.isPlain == b.isPlain && Less(a.numbers, b.numbers))))))
  {
    FlagLess(!a.isPreview, !b.isPreview);
    FlagLess(a.isPlain, b.isPlain);
    FirstDecides(a.version, [Flag(!a.isPreview), Flag(a.isPlain), a.numbers],
                 b.version, [Flag(!b.isPreview), Flag(b.isPlain), b.numbers]);
    FirstDecides(Flag(!a.isPreview), [Flag(a.isPlain), a.numbers], Flag(!b.isPreview), [Flag(b.isPlain), b.numbers]);
    FirstDecides(Flag(a.isPlain), [a.numbers], Flag(b.isPlain), [b.numbers]);
    FirstDecides(a.numbers, [], b.numbers, []);
    LessTotal(a.version, a.version);
    hide Less, KeyLess, Flag;
    assert ModelKey(a) == [a.version] + [Flag(!a.isPreview), Flag(a.isPlain), a.numbers];
    assert ModelKey(b) == [b.version] + [Flag(!b.isPreview), Flag(b.isPlain), b.numbers];
    assert [Flag(!a.isPreview)] + [Flag(a.isPlain), a.numbers] == [Flag(!a.isPreview), Flag(a.isPlain), a.numbers];
    assert [Flag(!b.isPreview)] + [Flag(b.isPlain), b.numbers] == [Flag(!b.isPreview), Flag(b.isPlain), b.numbers];
    assert [Flag(a.isPlain)] + [a.numbers] == [Flag(a.isPlain), a.numbers];
    assert [Flag(b.isPlain)] + [b.numbers] == [Flag(b.isPlain), b.numbers];
    assert [a.numbers] + [] == [a.numbers] && [b.numbers] + [] == [b.numbers];
  }

  lemma FirstDecides(a: seq<int>, more: Key, b: seq<int>, others: Key)
    ensures KeyLess([a] + more, [b] + others) <==> Less(a, b) || (a == b && KeyLess(more, others))
    ensures !KeyLess([], [])
  {
    hide Less;
    assert ([a] + more)[1..] == more && ([b] + others)[1..] == others;
  }

  lemma FlagLess(a: bool, b: bool)
    ensures Less(Flag(a), Flag(b)) <==> !a && b
    ensures Flag(a) == Flag(b) <==> a == b
  {
    assert Flag(a)[0] == (if a then 1 else 0) && Flag(b)[0] == (if b then 1 else 0);
  }

  // --- The best of a list --------------------------------------------------------------------------------

  /** The key of an id that competes, None for one that is skipped. */
  type Ranking = Text -> Option<Key>

  predicate Competes(rank: Ranking, ids: seq<Text>, i: nat) {
    i < |ids| && rank(ids[i]).Some?
  }

  /** The earliest of those with the greatest key. */
  ghost predicate IsBest(rank: Ranking, ids: seq<Text>, i: nat) {
    Competes(rank, ids, i)
    && forall j: nat :: Competes(rank, ids, j) ==>
         !KeyLess(rank(ids[i]).value, rank(ids[j]).value) && (j < i ==> KeyLess(rank(ids[j]).value, rank(ids[i]).value))
  }

  /** What a selection may return. */
  ghost predicate IsWinner(rank: Ranking, ids: seq<Text>, r: Option<Text>) {
    if r.None? then forall i: nat :: !Competes(rank, ids, i)
    else exists i: nat :: IsBest(rank, ids, i) && ids[i] == r.value
  }

  /** One more id: it wins if it is the first to compete or its key is greater. */
  lemma NextWinner(rank: Ranking, ids: seq<Text>, id: Text, best: Option<Text>)
    requires IsWinner(rank, ids, best)
    ensures best.Some? ==> rank(best.value).Some?
    ensures var wins := rank(id).Some? && (best.None? || KeyLess(rank(best.value).value, rank(id).value));
            IsWinner(rank, ids + [id], if wins then Some(id) else best)
  {
    hide KeyLess;
    var all := ids + [id];
    var n := |ids|;
    forall j: nat | j < n ensures Competes(rank, all, j) == Competes(rank, ids, j) && all[j] == ids[j] {}
    if best.None? {
      if rank(id).Some? {
        KeyLessTotal(rank(id).value, rank(id).value);
        assert IsBest(rank, all, n);
      }
    } else {
      var i: nat :| IsBest(rank, ids, i) && ids[i] == best.value;
      if rank(id).Some? && KeyLess(rank(best.value).value, rank(id).value) {
        forall j: nat | Competes(rank, all, j)
          ensures !KeyLess(rank(all[n]).value, rank(all[j]).value)
          ensures j < n ==> KeyLess(rank(all[j]).value, rank(all[n]).value)
        {
          Beaten(rank(all[j]).value, rank(best.value).value, rank(id).value, j < n);
        }
        assert IsBest(rank, all, n);
      } else {
        assert IsBest(rank, all, i);
      }
    }
  }

  lemma Beaten(k: Key, best: Key, next: Key, older: bool)
    requires KeyLess(best, next) && (if older then !KeyLess(best, k) else k == next)
    ensures !KeyLess(next, k) && (older ==> KeyLess(k, next))
  {
    hide KeyLess;
    KeyLessTotal(k, next);
    if older {
      KeyLessTotal(best, k);
      if KeyLess(k, best) { KeyLessTransitive(k, best, next); }
    }
  }

  /** `_classify_model` for one family, as the sort key. */
  function FamilyRank(family: Text, id: Text): Option<Key> {
    var m := Classify(id);
    if m.Some? && m.value.family == family then Some(ModelKey(m.value)) else None
  }

  /** The latest model of a family; None where the source raises because it has none. */
  method SelectLatestModel(ids: seq<Text>, family: Text) returns (best: Option<Text>)
    ensures IsWinner(id => FamilyRank(family, id), ids, best)
  {
    hide Classify, KeyLess, ModelKey;
    ghost var rank: Ranking := id => FamilyRank(family, id);
    best := None;
    var bestKey: Option<Key> := None;
    for n := 0 to |ids|
      invariant IsWinner(rank, ids[..n], best)
      invariant bestKey == if best.None? then None else rank(best.value)
    {
      assert ids[..n + 1] == ids[..n] + [ids[n]];
      NextWinner(rank, ids[..n], ids[n], best);
      var parsed := Classify(ids[n]);
      if parsed.None? || parsed.value.family != family { continue; }
      var key := ModelKey(parsed.value);
      if bestKey.None? || KeyLess(bestKey.value, key) {
        bestKey, best := Some(key), Some(ids[n]);
      }
    }
    assert ids[..|ids|] == ids;
  }

  // --- Embedding models ------------------------------------------------------------------------------------

  /** Families from the most preferred down. */
  const EMBEDDING_FAMILIES: seq<Text> := [
    Ascii("gemini-embedding"), Ascii("text-embedding"), Ascii("text-multilingual-embedding"), Ascii("embeddinggemma")]

  predicate InFamily(id: Text, family: Text) {
    id == family || At(id, 0, family + [MINUS])
  }

  function DropDashes(t: Text): Text {
    if t != [] && t[0] == MINUS then DropDashes(t[1..]) else t
  }

  /** Family priority, then stable before variant, then the numbers. */
  function EmbeddingKey(id: Text, rank: nat): Key
    requires rank < |EMBEDDING_FAMILIES| && InFamily(id, EMBEDDING_FAMILIES[rank])
  {
    AtSlice(id, 0, EMBEDDING_FAMILIES[rank] + [MINUS]);
    var remainder := DropDashes(id[|EMBEDDING_FAMILIES[rank]|..]);
    var tokens := if remainder == [] then [] else Split(remainder, MINUS);
    [[|EMBEDDING_FAMILIES| - rank], Flag(tokens == [] || IsNumeral(tokens[0])), Numbers(tokens)]
  }

  /** The key under the first family, from the given one on, that the id is in. */
  function EmbeddingFrom(id: Text, rank: nat): Option<Key>
    requires rank <= |EMBEDDING_FAMILIES|
    decreases |EMBEDDING_FAMILIES| - rank
  {
    if rank == |EMBEDDING_FAMILIES| then None
    else if InFamily(id, EMBEDDING_FAMILIES[rank]) then Some(EmbeddingKey(id, rank))
    else EmbeddingFrom(id, rank + 1)
  }

  function EmbeddingRank(id: Text): Option<Key> {
    EmbeddingFrom(id, 0)
  }

  /** `_classify_embedding_model`. */
  method ClassifyEmbeddingModel(id: Text) returns (key: Option<Key>)
    ensures key == EmbeddingRank(id)
  {
    hide InFamily, EmbeddingKey;
    for rank := 0 to |EMBEDDING_FAMILIES|
      invariant EmbeddingRank(id) == EmbeddingFrom(id, rank)
    {
      if !InFamily(id, EMBEDDING_FAMILIES[rank]) { continue; }
      return Some(EmbeddingKey(id, rank));
    }
    return None;
  }

  /** An embedding id of a family and more tokens ranks by the family, by whether it is a plain name or
      a numbered release, and by its numbers. */
  lemma EmbeddingSpelled(rank: nat, tokens: seq<Text>)
    requires rank < |EMBEDDING_FAMILIES| && tokens != [] && tokens[0] != [] && forall t :: t in tokens ==> IsToken(t)
    ensures EmbeddingRank(EMBEDDING_FAMILIES[rank] + [MINUS] + Join(tokens, MINUS))
            == Some([[|EMBEDDING_FAMILIES| - rank], Flag(IsNumeral(tokens[0])), Numbers(tokens)])
    ensures EmbeddingRank(EMBEDDING_FAMILIES[rank]) == Some([[|EMBEDDING_FAMILIES| - rank], Flag(true), []])
  {
    hide EmbeddingFrom, InFamily, Numbers, Flag, IsNumeral, IsToken;
    SpelledInFamily(rank, Join(tokens, MINUS));
    RankIn(EMBEDDING_FAMILIES[rank] + [MINUS] + Join(tokens, MINUS), rank);
    RankIn(EMBEDDING_FAMILIES[rank], rank);
    SpelledKey(rank, tokens);
  }

  /** An embedding id spelled from its family and further tokens. */
  function EmbeddingId(rank: nat, tokens: seq<Text>): Text
    requires rank < |EMBEDDING_FAMILIES|
  {
    EMBEDDING_FAMILIES[rank] + if tokens == [] then [] else [MINUS] + Join(tokens, MINUS)
  }

  /** The bare family or a numbered release of it, and no variant. */
  predicate IsRelease(tokens: seq<Text>) {
    tokens == [] || IsNumeral(tokens[0])
  }

  predicate AreTokens(tokens: seq<Text>) {
    (tokens != [] ==> tokens[0] != []) && forall t :: t in tokens ==> IsToken(t)
  }

  /** Later means: a more preferred family; then a release before a variant; then the higher numbers. */
  lemma LaterEmbedding(p: nat, s: seq<Text>, q: nat, t: seq<Text>)
    requires p < |EMBEDDING_FAMILIES| && q < |EMBEDDING_FAMILIES| && AreTokens(s) && AreTokens(t)
    ensures var a, b := EmbeddingRank(EmbeddingId(p, s)), EmbeddingRank(EmbeddingId(q, t));
            a.Some? && b.Some?
            && (KeyLess(a.value, b.value)
                <==> q < p || (p == q && ((!IsRelease(s) && IsRelease(t))
                                          || (IsRelease(s) == IsRelease(t) && Less(Numbers(s), Numbers(t))))))
  {
    hide EmbeddingRank, Numbers, Flag, KeyLess, IsNumeral, Join;
    var n := |EMBEDDING_FAMILIES|;
    IdRanked(p, s);
    IdRanked(q, t);
    FlagLess(IsRelease(s), IsRelease(t));
    var restA, restB: Key := [Flag(IsRelease(s)), Numbers(s)], [Flag(IsRelease(t)), Numbers(t)];
    FirstDecides([n - p], restA, [n - q], restB);
    FirstDecides(Flag(IsRelease(s)), [Numbers(s)], Flag(IsRelease(t)), [Numbers(t)]);
    FirstDecides(Numbers(s), [], Numbers(t), []);
    assert [[n - p]] + restA == [[n - p], Flag(IsRelease(s)), Numbers(s)];
    assert [[n - q]] + restB == [[n - q], Flag(IsRelease(t)), Numbers(t)];
    assert [Flag(IsRelease(s))] + [Numbers(s)] == restA && [Flag(IsRelease(t))] + [Numbers(t)] == restB;
    assert [Numbers(s)] + [] == [Numbers(s)] && [Numbers(t)] + [] == [Numbers(t)];
    assert Less([n - p], [n - q]) <==> q < p;
  }

  lemma IdRanked(rank: nat, tokens: seq<Text>)
    requires rank < |EMBEDDING_FAMILIES| && AreTokens(tokens)
    ensures EmbeddingRank(EmbeddingId(rank, tokens))
         == Some([[|EMBEDDING_FAMILIES| - rank], Flag(IsRelease(tokens)), Numbers(tokens)])
  {
    hide EmbeddingRank, IsNumeral, IsToken;
    if tokens == [] {
      EmbeddingSpelled(rank, [PRO]) by { FamilyNames(); }
      assert EMBEDDING_FAMILIES[rank] + [] == EMBEDDING_FAMILIES[rank];
    } else {
      EmbeddingSpelled(rank, tokens);
      assert EMBEDDING_FAMILIES[rank] + ([MINUS] + Join(tokens, MINUS))
          == EMBEDDING_FAMILIES[rank] + [MINUS] + Join(tokens, MINUS);
    }
  }

  /** Further dashes after the family's are passed over. */
  lemma {:induction false} DashesDropped(dashes: Text, rest: Text)
    requires (forall i :: 0 <= i < |dashes| ==> dashes[i] == MINUS) && (rest == [] || rest[0] != MINUS)
    ensures DropDashes(dashes + rest) == rest
    decreases |dashes|
  {
    if dashes == [] {
      assert dashes + rest == rest;
    } else {
      DashesDropped(dashes[1..], rest);
      assert (dashes + rest)[1..] == dashes[1..] + rest;
    }
  }

  lemma DashesIgnored(rank: nat, dashes: Text, rest: Text)
    requires rank < |EMBEDDING_FAMILIES| && dashes != [] && (forall i :: 0 <= i < |dashes| ==> dashes[i] == MINUS)
    requires rest == [] || rest[0] != MINUS
    ensures EmbeddingRank(EMBEDDING_FAMILIES[rank] + dashes + rest)
         == EmbeddingRank(if rest == [] then EMBEDDING_FAMILIES[rank] else EMBEDDING_FAMILIES[rank] + [MINUS] + rest)
  {
    hide EmbeddingFrom, InFamily, Numbers, Split;
    var family := EMBEDDING_FAMILIES[rank];
    var id := family + dashes + rest;
    assert family + [MINUS] + (dashes[1..] + rest) == id;
    SpelledInFamily(rank, dashes[1..] + rest);
    SpelledInFamily(rank, rest);
    RankIn(id, rank);
    RankIn(family, rank);
    RankIn(family + [MINUS] + rest, rank);
    assert id[|family|..] == dashes + rest && family[|family|..] == [];
    assert (family + [MINUS] + rest)[|family|..] == [MINUS] + rest;
    DashesDropped(dashes, rest);
    DashesDropped([MINUS], rest);
  }

  lemma SpelledInFamily(rank: nat, rest: Text)
    requires rank < |EMBEDDING_FAMILIES|
    ensures InFamily(EMBEDDING_FAMILIES[rank] + [MINUS] + rest, EMBEDDING_FAMILIES[rank])
    ensures InFamily(EMBEDDING_FAMILIES[rank], EMBEDDING_FAMILIES[rank])
  {
    var head := EMBEDDING_FAMILIES[rank] + [MINUS];
    AtSlice(head + rest, 0, head);
    assert (head + rest)[0..|head|] == head;
  }

  lemma RankIn(id: Text, rank: nat)
    requires rank < |EMBEDDING_FAMILIES| && InFamily(id, EMBEDDING_FAMILIES[rank])
    ensures EmbeddingRank(id) == Some(EmbeddingKey(id, rank))
  {
    hide InFamily, EmbeddingKey, EmbeddingFrom;
    EmbeddingPlace(id, 0);
    if EmbeddingFrom(id, 0).Some? {
      var r: nat :| r < |EMBEDDING_FAMILIES| && InFamily(id, EMBEDDING_FAMILIES[r])
                    && EmbeddingFrom(id, 0).value == EmbeddingKey(id, r);
      FamiliesDisjoint(id, r, rank);
    }
  }

  lemma SpelledKey(rank: nat, tokens: seq<Text>)
    requires rank < |EMBEDDING_FAMILIES| && tokens != [] && tokens[0] != [] && forall t :: t in tokens ==> IsToken(t)
    requires InFamily(EMBEDDING_FAMILIES[rank] + [MINUS] + Join(tokens, MINUS), EMBEDDING_FAMILIES[rank])
    requires InFamily(EMBEDDING_FAMILIES[rank], EMBEDDING_FAMILIES[rank])
    ensures EmbeddingKey(EMBEDDING_FAMILIES[rank] + [MINUS] + Join(tokens, MINUS), rank)
            == [[|EMBEDDING_FAMILIES| - rank], Flag(IsNumeral(tokens[0])), Numbers(tokens)]
    ensures EmbeddingKey(EMBEDDING_FAMILIES[rank], rank) == [[|EMBEDDING_FAMILIES| - rank], Flag(true), []]
  {
    hide InFamily, Flag, IsNumeral, NatOf, Split, At, DropDashes, Join, IsToken;
    var family, rest := EMBEDDING_FAMILIES[rank], Join(tokens, MINUS);
    AfterFamily(family, rest);
    FirstKept(tokens);
    TokensSplit(tokens);
  }

  lemma AfterFamily(family: Text, rest: Text)
    ensures (family + [MINUS] + rest)[|family|..] == [MINUS] + rest && family[|family|..] == []
    ensures DropDashes([MINUS] + rest) == DropDashes(rest) && DropDashes([]) == []
  {
    assert ([MINUS] + rest)[1..] == rest;
  }

  lemma FirstKept(tokens: seq<Text>)
    requires tokens != [] && tokens[0] != [] && forall t :: t in tokens ==> IsToken(t)
    ensures Join(tokens, MINUS) != [] && DropDashes(Join(tokens, MINUS)) == Join(tokens, MINUS)
  {
    assert Join(tokens, MINUS)[0] == tokens[0][0];
    assert tokens[0] in tokens && tokens[0][0] in tokens[0];
  }

  /** No id is in two families, so the order in which they are tried decides only how they rank. */
  lemma FamiliesDisjoint(id: Text, q: nat, r: nat)
    requires q < |EMBEDDING_FAMILIES| && r < |EMBEDDING_FAMILIES|
    requires InFamily(id, EMBEDDING_FAMILIES[q]) && InFamily(id, EMBEDDING_FAMILIES[r])
    ensures q == r
  {
    InFamilyStarts(id, EMBEDDING_FAMILIES[q]);
    InFamilyStarts(id, EMBEDDING_FAMILIES[r]);
    assert EMBEDDING_FAMILIES[0][0] == 'g' as int && EMBEDDING_FAMILIES[3][0] == 'e' as int;
    assert EMBEDDING_FAMILIES[1][0] == 't' as int && EMBEDDING_FAMILIES[1][5] == 'e' as int;
    assert EMBEDDING_FAMILIES[2][0] == 't' as int && EMBEDDING_FAMILIES[2][5] == 'm' as int;
  }

  lemma InFamilyStarts(id: Text, family: Text)
    requires InFamily(id, family)
    ensures |family| <= |id| && id[..|family|] == family
  {
    AtSlice(id, 0, family + [MINUS]);
    if id != family { assert id[..|family|] == id[0..|family| + 1][..|family|]; }
  }

  /** An embedding model ranks by its family's place. */
  lemma {:induction false} EmbeddingPlace(id: Text, from: nat)
    requires from <= |EMBEDDING_FAMILIES|
    ensures var key := EmbeddingFrom(id, from);
            if key.None? then forall r: nat :: from <= r < |EMBEDDING_FAMILIES| ==> !InFamily(id, EMBEDDING_FAMILIES[r])
            else exists r: nat :: from <= r < |EMBEDDING_FAMILIES| && InFamily(id, EMBEDDING_FAMILIES[r])
                              && key.value == EmbeddingKey(id, r)
    decreases |EMBEDDING_FAMILIES| - from
  {
    hide InFamily, EmbeddingKey;
    if from < |EMBEDDING_FAMILIES| && !InFamily(id, EMBEDDING_FAMILIES[from]) { EmbeddingPlace(id, from + 1); }
  }

  /** The best embedding model; None where the source raises because no id is of a known family. */
  method SelectEmbeddingModel(ids: seq<Text>) returns (best: Option<Text>)
    ensures IsWinner(EmbeddingRank, ids, best)
  {
    hide KeyLess, EmbeddingRank;
    best := None;
    var bestKey: Option<Key> := None;
    for n := 0 to |ids|
      invariant IsWinner(EmbeddingRank, ids[..n], best)
      invariant bestKey == if best.None? then None else EmbeddingRank(best.value)
    {
      assert ids[..n + 1] == ids[..n] + [ids[n]];
      NextWinner(EmbeddingRank, ids[..n], ids[n], best);
      var key := ClassifyEmbeddingModel(ids[n]);
      if key.None? { continue; }
      if bestKey.None? || KeyLess(bestKey.value, key.value) {
        bestKey, best := key, Some(ids[n]);
      }
    }
    assert ids[..|ids|] == ids;
  }

  // --- What a selection amounts to ---------------------------------------------------------------------------

  /** There is only one selection: it fails exactly when nothing competes. */
  lemma WinnerUnique(rank: Ranking, ids: seq<Text>, a: Option<Text>, b: Option<Text>)
    requires IsWinner(rank, ids, a) && IsWinner(rank, ids, b)
    ensures a == b
    ensures a.None? <==> forall i :: 0 <= i < |ids| ==> rank(ids[i]).None?
  {
    hide KeyLess, IsBest;
    forall r: Option<Text> | IsWinner(rank, ids, r) && r.Some? ensures exists i: nat :: Competes(rank, ids, i) {
      var i := BestIndex(rank, ids, r);
    }
    if a.Some? && b.Some? {
      var i := BestIndex(rank, ids, a);
      var j := BestIndex(rank, ids, b);
      OneBest(rank, ids, i, j);
    }
    forall i | a.None? && 0 <= i < |ids| ensures rank(ids[i]).None? { assert !Competes(rank, ids, i); }
  }

  lemma BestIndex(rank: Ranking, ids: seq<Text>, r: Option<Text>) returns (i: nat)
    requires IsWinner(rank, ids, r) && r.Some?
    ensures IsBest(rank, ids, i) && Competes(rank, ids, i) && ids[i] == r.value
  {
    i :| IsBest(rank, ids, i) && ids[i] == r.value;
  }

  lemma OneBest(rank: Ranking, ids: seq<Text>, i: nat, j: nat)
    requires IsBest(rank, ids, i) && IsBest(rank, ids, j)
    ensures i == j
  {
    hide KeyLess;
    assert Competes(rank, ids, i) && Competes(rank, ids, j);
  }

  lemma {:induction false} WinnerExists(rank: Ranking, ids: seq<Text>) returns (r: Option<Text>)
    ensures IsWinner(rank, ids, r)
    decreases |ids|
  {
    hide KeyLess, IsBest;
    if ids == [] {
      r := None;
    } else {
      var n := |ids| - 1;
      var best := WinnerExists(rank, ids[..n]);
      NextWinner(rank, ids[..n], ids[n], best);
      assert ids == ids[..n] + [ids[n]];
      r := if rank(ids[n]).Some? && (best.None? || KeyLess(rank(best.value).value, rank(ids[n]).value))
           then Some(ids[n]) else best;
    }
  }

  function Listed(r: Option<Text>): seq<Text> {
    if r.Some? then [r.value] else []
  }

  /** Selecting from two lists together is selecting from their two winners. */
  lemma WinnerOfWinners(rank: Ranking, xs: seq<Text>, ys: seq<Text>, a: Option<Text>, b: Option<Text>, r: Option<Text>)
    requires IsWinner(rank, xs, a) && IsWinner(rank, ys, b)
    ensures IsWinner(rank, xs + ys, r) <==> IsWinner(rank, Listed(a) + Listed(b), r)
  {
    hide KeyLess, IsBest, IsWinner;
    var w := WinnerExists(rank, Listed(a) + Listed(b));
    WinnersMerge(rank, xs, ys, a, b, w);
    if IsWinner(rank, xs + ys, r) { WinnerUnique(rank, xs + ys, r, w); }
    if IsWinner(rank, Listed(a) + Listed(b), r) { WinnerUnique(rank, Listed(a) + Listed(b), r, w); }
  }

  lemma WinnersMerge(rank: Ranking, xs: seq<Text>, ys: seq<Text>, a: Option<Text>, b: Option<Text>, r: Option<Text>)
    requires IsWinner(rank, xs, a) && IsWinner(rank, ys, b) && IsWinner(rank, Listed(a) + Listed(b), r)
    ensures IsWinner(rank, xs + ys, r)
  {
    hide KeyLess, IsBest;
    var all, two := xs + ys, Listed(a) + Listed(b);
    forall j: nat | j < |all| ensures all[j] == if j < |xs| then xs[j] else ys[j - |xs|] {}
    if a.None? || b.None? {
      if a.Some? {
        var i := BestIndex(rank, xs, a);
        FirstHalfBest(rank, xs, ys, i);
        assert two == [a.value];
        OnlyWinner(rank, a.value, r);
      } else if b.Some? {
        var i := BestIndex(rank, ys, b);
        SecondHalfBest(rank, xs, ys, i);
        assert two == [b.value];
        OnlyWinner(rank, b.value, r);
      } else {
        assert two == [];
        if r.Some? { var i := BestIndex(rank, two, r); }
        forall j: nat ensures !Competes(rank, all, j) {
          assert !Competes(rank, xs, j) && (j >= |xs| ==> !Competes(rank, ys, j - |xs|));
        }
      }
    } else {
      BothCompete(rank, xs, ys, a, b, r);
    }
  }

  lemma OnlyWinner(rank: Ranking, id: Text, r: Option<Text>)
    requires rank(id).Some? && IsWinner(rank, [id], r)
    ensures r == Some(id)
  {
    hide IsBest;
    assert Competes(rank, [id], 0);
    var i := BestIndex(rank, [id], r);
  }

  /** The first list's best is best of both when nothing in the second has a greater key. */
  lemma FirstHalfBest(rank: Ranking, xs: seq<Text>, ys: seq<Text>, i: nat)
    requires IsBest(rank, xs, i)
    requires forall j: nat :: Competes(rank, ys, j) ==> !KeyLess(rank(xs[i]).value, rank(ys[j]).value)
    ensures IsBest(rank, xs + ys, i) && (xs + ys)[i] == xs[i]
  {
    hide KeyLess;
    var all := xs + ys;
    forall j: nat | Competes(rank, all, j)
      ensures !KeyLess(rank(all[i]).value, rank(all[j]).value) && (j < i ==> KeyLess(rank(all[j]).value, rank(all[i]).value))
    {
      if j < |xs| { assert Competes(rank, xs, j); } else { assert Competes(rank, ys, j - |xs|); }
    }
  }

  /** The second list's best is best of both when everything in the first has a smaller key. */
  lemma SecondHalfBest(rank: Ranking, xs: seq<Text>, ys: seq<Text>, i: nat)
    requires IsBest(rank, ys, i)
    requires forall j: nat :: Competes(rank, xs, j) ==> KeyLess(rank(xs[j]).value, rank(ys[i]).value)
    ensures IsBest(rank, xs + ys, |xs| + i) && (xs + ys)[|xs| + i] == ys[i]
  {
    hide KeyLess;
    var all := xs + ys;
    var n := |xs| + i;
    forall j: nat | Competes(rank, all, j)
      ensures !KeyLess(rank(all[n]).value, rank(all[j]).value) && (j < n ==> KeyLess(rank(all[j]).value, rank(all[n]).value))
    {
      if j < |xs| {
        assert Competes(rank, xs, j);
        KeyLessTotal(rank(xs[j]).value, rank(ys[i]).value);
      } else {
        assert Competes(rank, ys, j - |xs|);
      }
    }
  }

  lemma BothCompete(rank: Ranking, xs: seq<Text>, ys: seq<Text>, a: Option<Text>, b: Option<Text>, r: Option<Text>)
    requires IsWinner(rank, xs, a) && IsWinner(rank, ys, b) && a.Some? && b.Some?
    requires IsWinner(rank, Listed(a) + Listed(b), r)
    ensures IsWinner(rank, xs + ys, r)
  {
    hide KeyLess, IsBest;
    var i := BestIndex(rank, xs, a);
    var j := BestIndex(rank, ys, b);
    var two := [a.value] + [b.value];
    assert two[0] == a.value && two[1] == b.value && Competes(rank, two, 0) && Competes(rank, two, 1);
    var n := BestIndex(rank, two, r);
    BestOfTwo(rank, two, n);
    if n == 0 {
      forall k: nat | Competes(rank, ys, k) ensures !KeyLess(rank(xs[i]).value, rank(ys[k]).value) {
        BestBeats(rank, ys, j, k);
        NotAbove(rank(a.value).value, rank(b.value).value, rank(ys[k]).value);
      }
      FirstHalfBest(rank, xs, ys, i);
    } else {
      forall k: nat | Competes(rank, xs, k) ensures KeyLess(rank(xs[k]).value, rank(ys[j]).value) {
        BestBeats(rank, xs, i, k);
        Beaten(rank(xs[k]).value, rank(a.value).value, rank(b.value).value, true);
      }
      SecondHalfBest(rank, xs, ys, j);
    }
  }

  lemma BestOfTwo(rank: Ranking, two: seq<Text>, n: nat)
    requires |two| == 2 && IsBest(rank, two, n) && Competes(rank, two, 0) && Competes(rank, two, 1)
    ensures if n == 0 then !KeyLess(rank(two[0]).value, rank(two[1]).value)
            else n == 1 && KeyLess(rank(two[0]).value, rank(two[1]).value)
  {
    hide KeyLess;
  }

  lemma BestBeats(rank: Ranking, ids: seq<Text>, i: nat, k: nat)
    requires IsBest(rank, ids, i) && Competes(rank, ids, k)
    ensures !KeyLess(rank(ids[i]).value, rank(ids[k]).value)
  {
    hide KeyLess;
  }

  lemma NotAbove(a: Key, b: Key, k: Key)
    requires !KeyLess(a, b) && !KeyLess(b, k)
    ensures !KeyLess(a, k)
  {
    hide KeyLess;
    KeyLessTotal(b, k);
    KeyLessTotal(a, b);
    if KeyLess(a, k) && KeyLess(k, b) { KeyLessTransitive(a, k, b); }
  }

  /** The ids that compete, in their order. */
  function Members(rank: Ranking, ids: seq<Text>): seq<Text> {
    if ids == [] then []
    else Members(rank, ids[..|ids| - 1]) + if rank(ids[|ids| - 1]).Some? then [ids[|ids| - 1]] else []
  }

  lemma {:induction false} SharedWinner(rank: Ranking, ids: seq<Text>) returns (r: Option<Text>)
    ensures IsWinner(rank, ids, r) && IsWinner(rank, Members(rank, ids), r)
    decreases |ids|
  {
    hide KeyLess, IsWinner;
    if ids == [] {
      r := WinnerExists(rank, []);
    } else {
      var n := |ids| - 1;
      var best := SharedWinner(rank, ids[..n]);
      NextWinner(rank, ids[..n], ids[n], best);
      NextWinner(rank, Members(rank, ids[..n]), ids[n], best);
      assert ids == ids[..n] + [ids[n]];
      assert rank(ids[n]).None? ==> Members(rank, ids) == Members(rank, ids[..n]);
      r := if rank(ids[n]).Some? && (best.None? || KeyLess(rank(best.value).value, rank(ids[n]).value))
           then Some(ids[n]) else best;
    }
  }

  /** Ids of other families, and ids of none, change nothing. */
  lemma OthersIgnored(rank: Ranking, ids: seq<Text>, r: Option<Text>)
    ensures IsWinner(rank, ids, r) <==> IsWinner(rank, Members(rank, ids), r)
  {
    hide IsWinner, Members;
    var w := SharedWinner(rank, ids);
    if IsWinner(rank, ids, r) { WinnerUnique(rank, ids, r, w); }
    if IsWinner(rank, Members(rank, ids), r) { WinnerUnique(rank, Members(rank, ids), r, w); }
  }

  /** The embedding model chosen is of the most preferred family that has any. */
  lemma BestFamilyWins(ids: seq<Text>, r: Text, i: nat, q: nat)
    requires IsWinner(EmbeddingRank, ids, Some(r))
    requires i < |ids| && q < |EMBEDDING_FAMILIES| && InFamily(ids[i], EMBEDDING_FAMILIES[q])
    ensures exists p: nat :: p <= q && InFamily(r, EMBEDDING_FAMILIES[p])
  {
    hide IsBest, InFamily, EmbeddingFrom;
    var n := BestIndex(EmbeddingRank, ids, Some(r));
    EmbeddingPlace(ids[i], 0);
    EmbeddingPlace(r, 0);
    assert Competes(EmbeddingRank, ids, i);
    BestBeats(EmbeddingRank, ids, n, i);
    var p: nat :| p < |EMBEDDING_FAMILIES| && InFamily(r, EMBEDDING_FAMILIES[p])
                  && EmbeddingFrom(r, 0).value == EmbeddingKey(r, p);
    var k: nat :| k < |EMBEDDING_FAMILIES| && InFamily(ids[i], EMBEDDING_FAMILIES[k])
                  && EmbeddingFrom(ids[i], 0).value == EmbeddingKey(ids[i], k);
    FamiliesDisjoint(ids[i], k, q);
    PlaceDecides(r, p, ids[i], k);
  }

  lemma PlaceDecides(a: Text, p: nat, b: Text, q: nat)
    requires p < |EMBEDDING_FAMILIES| && InFamily(a, EMBEDDING_FAMILIES[p])
    requires q < |EMBEDDING_FAMILIES| && InFamily(b, EMBEDDING_FAMILIES[q])
    requires !KeyLess(EmbeddingKey(a, p), EmbeddingKey(b, q))
    ensures p <= q
  {
    hide InFamily, Numbers;
    assert EmbeddingKey(a, p)[0] == [4 - p] && EmbeddingKey(b, q)[0] == [4 - q];
  }
}
