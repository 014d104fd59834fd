/**
 Publishing a prompt takes three writes and resolving one takes two reads, with
 nothing to hold them together: any number of publishers and readers interleave
 here, and a publisher may die between any two of its writes.
 */
module Prompts {
  import opened Options
  import opened Text

  type Key = string
  type VersionId = nat

  datatype Status = Draft | Published | Archived

  datatype Version = Version(key: Key, content: string, status: Status)

  type Versions = map<VersionId, Version>

  /** `UPDATE prompt_versions SET status = 'archived' WHERE prompt_key = key AND status = 'published'`. */
  function Archive(versions: Versions, key: Key): Versions {
    map v | v in versions :: ArchivedFor(versions[v], key)
  }

  function ArchivedFor(v: Version, key: Key): Version {
    if v.key == key && v.status == Published then v.(status := Archived) else v
  }

  function Mark(versions: Versions, id: VersionId): Versions {
    if id in versions then versions[id := versions[id].(status := Published)] else versions
  }

  ghost function PublishedOf(versions: Versions, key: Key): set<VersionId> {
    set v | v in versions && versions[v].key == key && versions[v].status == Published
  }

  predicate Exists(versions: Versions, key: Key, id: VersionId) {
    id in versions && versions[id].key == key
  }

  /** The second read: the content, if that version is published and not blank now. */
  function Fetched(versions: Versions, designated: Option<VersionId>): Option<string> {
    if designated.Some? && designated.value in versions
       && versions[designated.value].status == Published && !Blank(versions[designated.value].content)
    then Some(versions[designated.value].content)
    else None
  }

  function Designated(definitions: map<Key, VersionId>, key: Key): Option<VersionId> {
    if key in definitions then Some(definitions[key]) else None
  }

  class PromptStore {
    var versions: Versions
    var definitions: map<Key, VersionId>

    /** Each definition row names a version of its own key. */
    ghost predicate Valid()
      reads this
    {
      forall key | key in definitions :: Exists(versions, key, definitions[key])
    }

    constructor ()
      ensures versions == map[] && definitions == map[] && Valid()
    {
      versions, definitions := map[], map[];
    }

    /**
     A further draft of a key needs a number of its own: the shipped schema has
     UNIQUE(prompt_key, version) and every draft is inserted with the default 1.
     Neither the number nor that constraint is modelled.
     */
    method CreatePromptVersion(id: VersionId, key: Key, content: string)
      requires id !in versions && Valid()
      modifies this`versions
      ensures versions == old(versions)[id := Version(key, content, Draft)] && Valid()
      ensures forall k :: PublishedOf(versions, k) == PublishedOf(old(versions), k)
      ensures forall designated :: Fetched(versions, designated) == Fetched(old(versions), designated)
    {
      versions := versions[id := Version(key, content, Draft)];
    }

    /** Publish and rollback issue the same three writes; false is the 404 answer. */
    method PublishPrompt(key: Key, id: VersionId) returns (ok: bool)
      requires Valid()
      modifies this
      ensures Valid()
      ensures ok <==> Exists(old(versions), key, id)
      ensures !ok ==> versions == old(versions) && definitions == old(definitions)
      ensures ok ==> PublishedOf(versions, key) == {id} && definitions == old(definitions)[key := id]
      ensures ok ==> versions == Mark(Archive(old(versions), key), id)
      ensures versions.Keys == old(versions).Keys
      ensures ok ==> forall v | v in versions ::
                if v == id then versions[v] == old(versions)[v].(status := Published)
                else if versions[v].key == key && old(versions)[v].status == Published
                then versions[v] == old(versions)[v].(status := Archived)
                else versions[v] == old(versions)[v]
    {
      if !Exists(versions, key, id) {
        return false;
      }
      versions := Archive(versions, key);
      versions := Mark(versions, id);
      definitions := definitions[key := id];
      ok := true;
    }

    method ResolvePublishedPrompt(key: Key, fallback: string) returns (content: string, usedFallback: bool)
      requires Valid()
      ensures usedFallback <==>
                !(key in definitions && definitions[key] in PublishedOf(versions, key)
                  && !Blank(versions[definitions[key]].content))
      ensures content == if usedFallback then fallback else versions[definitions[key]].content
    {
      var designated := Designated(definitions, key);
      var fetched := Fetched(versions, designated);
      match fetched
      case Some(text) => content, usedFallback := text, false;
      case None => content, usedFallback := fallback, true;
    }
  }

  // ---- Interleaved publishers and readers ----

  type PublisherId = nat
  type ReaderId = nat

  datatype Stage = Chosen | HasArchived | HasMarked

  datatype Publisher = Publisher(key: Key, id: VersionId, stage: Stage)

  /** A reader between its two reads. */
  datatype Reader = Reader(key: Key, designated: Option<VersionId>)

  datatype State = State(versions: Versions, definitions: map<Key, VersionId>,
                         publishers: map<PublisherId, Publisher>, readers: map<ReaderId, Reader>)

  datatype Event =
    | Create(id: VersionId, key: Key, content: string)
    | Choose(p: PublisherId, key: Key, id: VersionId)
    | ArchiveOthers(p: PublisherId)
    | MarkOwn(p: PublisherId)
    | Point(p: PublisherId)
    | Die(p: PublisherId)
    | Look(r: ReaderId, key: Key)
    | Fetch(r: ReaderId)

  const EMPTY := State(map[], map[], map[], map[])

  predicate Enabled(s: State, e: Event) {
    match e
    case Create(id, _, _) => id !in s.versions
    case Choose(p, key, id) => p !in s.publishers && Exists(s.versions, key, id)
    case ArchiveOthers(p) => p in s.publishers && s.publishers[p].stage == Chosen
    case MarkOwn(p) => p in s.publishers && s.publishers[p].stage == HasArchived
    case Point(p) => p in s.publishers && s.publishers[p].stage == HasMarked
    case Die(p) => p in s.publishers
    case Look(r, _) => r !in s.readers
    case Fetch(r) => r in s.readers
  }

  function Apply(s: State, e: Event): State
    requires Enabled(s, e)
  {
    match e
    case Create(id, key, content) => s.(versions := s.versions[id := Version(key, content, Draft)])
    case Choose(p, key, id) => s.(publishers := s.publishers[p := Publisher(key, id, Chosen)])
    case ArchiveOthers(p) =>
      s.(versions := Archive(s.versions, s.publishers[p].key),
         publishers := s.publishers[p := s.publishers[p].(stage := HasArchived)])
    case MarkOwn(p) =>
      s.(versions := Mark(s.versions, s.publishers[p].id),
         publishers := s.publishers[p := s.publishers[p].(stage := HasMarked)])
    case Point(p) =>
      s.(definitions := s.definitions[s.publishers[p].key := s.publishers[p].id],
         publishers := s.publishers - {p})
    case Die(p) => s.(publishers := s.publishers - {p})
    case Look(r, key) => s.(readers := s.readers[r := Reader(key, Designated(s.definitions, key))])
    case Fetch(r) => s.(readers := s.readers - {r})
  }

  ghost predicate Legal(es: seq<Event>)
    decreases |es|, 0
  {
    es == [] || (Legal(es[..|es|-1]) && Enabled(Exec(es[..|es|-1]), es[|es|-1]))
  }

  ghost function Exec(es: seq<Event>): State
    requires Legal(es)
    decreases |es|, 1
  {
    if es == [] then EMPTY else Apply(Exec(es[..|es|-1]), es[|es|-1])
  }

  /** What PromptStore.PublishPrompt is proved to do is what the steps do with nobody interleaving. */
  lemma PublishIsASoloRun(s: State, p: PublisherId, key: Key, id: VersionId)
    requires Enabled(s, Choose(p, key, id))
    ensures var s1 := Apply(s, Choose(p, key, id));
            && Enabled(s1, ArchiveOthers(p))
            && var s2 := Apply(s1, ArchiveOthers(p));
               && Enabled(s2, MarkOwn(p)) && Enabled(s2, Die(p))
               && var s3 := Apply(s2, MarkOwn(p));
                  && Enabled(s3, Point(p)) && Enabled(s3, Die(p))
                  && Apply(s3, Point(p)) == s.(versions := Mark(Archive(s.versions, key), id),
                                               definitions := s.definitions[key := id])
  {
    var s1 := Apply(s, Choose(p, key, id));
    var s2 := Apply(s1, ArchiveOthers(p));
    var s3 := Apply(s2, MarkOwn(p));
    assert s3.publishers - {p} == s.publishers;
  }

  /** And the two reads of PromptStore.ResolvePublishedPrompt: they change nothing and fetch what it does. */
  lemma ResolveIsASoloRun(s: State, r: ReaderId, key: Key)
    requires r !in s.readers
    ensures Enabled(s, Look(r, key))
    ensures var s1 := Apply(s, Look(r, key));
            && Enabled(s1, Fetch(r)) && Apply(s1, Fetch(r)) == s
            && Fetched(s1.versions, s1.readers[r].designated)
               == if key in s.definitions && s.definitions[key] in s.versions
                     && s.versions[s.definitions[key]].status == Published
                     && !Blank(s.versions[s.definitions[key]].content)
                  then Some(s.versions[s.definitions[key]].content) else None
  {
    assert Apply(s, Look(r, key)).readers - {r} == s.readers;
  }

  // ---- With any number of publishers: nothing crosses keys ----

  ghost predicate Confined(s: State) {
    && (forall key | key in s.definitions :: Exists(s.versions, key, s.definitions[key]))
    && (forall p | p in s.publishers :: Exists(s.versions, s.publishers[p].key, s.publishers[p].id))
    && (forall r | r in s.readers && s.readers[r].designated.Some? ::
          Exists(s.versions, s.readers[r].key, s.readers[r].designated.value))
  }

  lemma ConfinedStep(s: State, e: Event)
    requires Confined(s) && Enabled(s, e)
    ensures Confined(Apply(s, e))
    ensures forall v | v in s.versions ::
              v in Apply(s, e).versions && Apply(s, e).versions[v].key == s.versions[v].key
              && Apply(s, e).versions[v].content == s.versions[v].content
  {
  }

  lemma {:induction false} ConfinedHolds(es: seq<Event>)
    requires Legal(es)
    ensures Confined(Exec(es))
    decreases |es|
  {
    if es != [] {
      ConfinedHolds(es[..|es|-1]);
      ConfinedStep(Exec(es[..|es|-1]), es[|es|-1]);
    }
  }

  /**
   However publishers race or die, the second read answers with the fallback or
   with the content of a version of the asked key that is published at that moment.
   */
  lemma ResolverNeverLeaks(es: seq<Event>, r: ReaderId)
    requires Legal(es) && r in Exec(es).readers
    ensures var s := Exec(es);
            var fetched := Fetched(s.versions, s.readers[r].designated);
            fetched.Some? ==>
              exists v :: v in PublishedOf(s.versions, s.readers[r].key) && s.versions[v].content == fetched.value
  {
    ConfinedHolds(es);
    var s := Exec(es);
    if Fetched(s.versions, s.readers[r].designated).Some? {
      assert s.readers[r].designated.value in PublishedOf(s.versions, s.readers[r].key);
    }
  }

  // ---- One publisher at a time for each key ----

  ghost predicate Alone(s: State, e: Event) {
    e.Choose? ==> forall p | p in s.publishers :: s.publishers[p].key != e.key
  }

  ghost predicate Serial(es: seq<Event>)
    decreases |es|
  {
    Legal(es) && (es == [] || (Serial(es[..|es|-1]) && Alone(Exec(es[..|es|-1]), es[|es|-1])))
  }

  /** What the stage of the one publisher of `key` says about the published versions. */
  ghost predicate KeyInv(published: set<VersionId>, publishers: map<PublisherId, Publisher>, key: Key) {
    && |published| <= 1
    && (forall p, q | p in publishers && q in publishers && publishers[p].key == key == publishers[q].key :: p == q)
    && (forall p | p in publishers && publishers[p].key == key ::
          && (publishers[p].stage == HasArchived ==> published == {})
          && (publishers[p].stage == HasMarked ==> published == {publishers[p].id}))
  }

  lemma PublishedAfter(s: State, e: Event, key: Key)
    requires Confined(s) && Enabled(s, e)
    ensures PublishedOf(Apply(s, e).versions, key) ==
            if e.ArchiveOthers? && s.publishers[e.p].key == key then {}
            else if e.MarkOwn? && s.publishers[e.p].key == key
            then PublishedOf(s.versions, key) + {s.publishers[e.p].id}
            else PublishedOf(s.versions, key)
  {
  }

  lemma PublishersAfter(s: State, e: Event)
    requires Enabled(s, e)
    ensures Apply(s, e).publishers ==
            match e {
              case Choose(p, key, id) => s.publishers[p := Publisher(key, id, Chosen)]
              case ArchiveOthers(p) => s.publishers[p := s.publishers[p].(stage := HasArchived)]
              case MarkOwn(p) => s.publishers[p := s.publishers[p].(stage := HasMarked)]
              case Point(p) => s.publishers - {p}
              case Die(p) => s.publishers - {p}
              case _ => s.publishers
            }
  {
  }

  lemma KeyStep(s: State, e: Event, key: Key)
    requires Confined(s) && KeyInv(PublishedOf(s.versions, key), s.publishers, key) && Enabled(s, e) && Alone(s, e)
    ensures KeyInv(PublishedOf(Apply(s, e).versions, key), Apply(s, e).publishers, key)
  {
    PublishedAfter(s, e, key);
    PublishersAfter(s, e);
    var published := PublishedOf(s.versions, key);
    match e
    case Choose(p, k, id) => Replaced(published, published, s.publishers, p, Publisher(k, id, Chosen), key);
    case ArchiveOthers(p) =>
      var archived := s.publishers[p].(stage := HasArchived);
      Replaced(published, if archived.key == key then {} else published, s.publishers, p, archived, key);
    case MarkOwn(p) =>
      var marked := s.publishers[p].(stage := HasMarked);
      Replaced(published, if marked.key == key then {marked.id} else published, s.publishers, p, marked, key);
    case _ =>
  }

  /** One publisher changes stage, or appears when its key has none. */
  lemma Replaced(published: set<VersionId>, published': set<VersionId>, publishers: map<PublisherId, Publisher>,
                 p: PublisherId, pub: Publisher, key: Key)
    requires KeyInv(published, publishers, key) && |published'| <= 1
    requires if p in publishers then publishers[p].key == pub.key
             else forall q | q in publishers :: publishers[q].key != pub.key
    requires if pub.key != key then published' == published
             else (pub.stage == HasArchived ==> published' == {}) && (pub.stage == HasMarked ==> published' == {pub.id})
    ensures KeyInv(published', publishers[p := pub], key)
  {
  }

  lemma {:induction false} KeyHolds(es: seq<Event>, key: Key)
    requires Serial(es)
    ensures KeyInv(PublishedOf(Exec(es).versions, key), Exec(es).publishers, key)
    decreases |es|
  {
    if es != [] {
      KeyHolds(es[..|es|-1], key);
      ConfinedHolds(es[..|es|-1]);
      KeyStep(Exec(es[..|es|-1]), es[|es|-1], key);
    } else {
      assert PublishedOf(EMPTY.versions, key) == {};
    }
  }

  /** The version of the last publish of `key` that finished. */
  ghost function LastFinished(es: seq<Event>, key: Key): Option<VersionId>
    requires Legal(es)
  {
    if es == [] then None
    else
      var s, e := Exec(es[..|es|-1]), es[|es|-1];
      if e.Point? && s.publishers[e.p].key == key then Some(s.publishers[e.p].id)
      else LastFinished(es[..|es|-1], key)
  }

  /** Nothing has been written for `key` since its last publish finished. */
  ghost predicate Settled(es: seq<Event>, key: Key)
    requires Legal(es)
  {
    es != [] &&
    (var s, e := Exec(es[..|es|-1]), es[|es|-1];
     || (e.Point? && s.publishers[e.p].key == key)
     || (Settled(es[..|es|-1], key) && !(e.ArchiveOthers? && s.publishers[e.p].key == key)))
  }

  /**
   With one publisher at a time for each key, crashes included: at most one
   version is ever published; the definition row always names the last publish that
   finished; and until the next publish starts writing, that version is the one
   published version, so resolving returns exactly its content.
   */
  lemma {:induction false} PublishTakesEffect(es: seq<Event>, key: Key)
    requires Serial(es)
    ensures var s := Exec(es);
            && |PublishedOf(s.versions, key)| <= 1
            && Designated(s.definitions, key) == LastFinished(es, key)
            && (Settled(es, key) ==>
                  && LastFinished(es, key).Some?
                  && PublishedOf(s.versions, key) == {LastFinished(es, key).value}
                  && (forall p | p in s.publishers && s.publishers[p].key == key :: s.publishers[p].stage == Chosen))
    decreases |es|
  {
    KeyHolds(es, key);
    if es != [] {
      var s, e := Exec(es[..|es|-1]), es[|es|-1];
      PublishTakesEffect(es[..|es|-1], key);
      KeyHolds(es[..|es|-1], key);
      ConfinedHolds(es[..|es|-1]);
      PublishedAfter(s, e, key);
    }
  }

  lemma SettledResolves(es: seq<Event>, key: Key)
    requires Serial(es) && Settled(es, key)
    ensures LastFinished(es, key).Some? && LastFinished(es, key).value in Exec(es).versions
    ensures var s := Exec(es);
            var content := s.versions[LastFinished(es, key).value].content;
            Fetched(s.versions, Designated(s.definitions, key)) == if Blank(content) then None else Some(content)
  {
    PublishTakesEffect(es, key);
    assert LastFinished(es, key).value in PublishedOf(Exec(es).versions, key);
  }

  // ---- Two publishers at once ----

  lemma Then(es: seq<Event>, e: Event, s: State, s': State) returns (es': seq<Event>)
    requires Legal(es) && Exec(es) == s && Enabled(s, e) && Apply(s, e) == s'
    ensures es' == es + [e] && Legal(es') && Exec(es') == s'
  {
    es' := es + [e];
    assert es'[..|es'|-1] == es;
  }

  /** Publishers 0 and 1 of `key` at the given stages, with versions 0 and 1 at the given statuses. */
  function Race(key: Key, text: string, status0: Status, status1: Status, publishers: map<PublisherId, Publisher>,
                definitions: map<Key, VersionId>): State
  {
    State(map[0 := Version(key, text, status0), 1 := Version(key, text, status1)], definitions, publishers, map[])
  }

  function Racers(key: Key, stage0: Stage, stage1: Stage): map<PublisherId, Publisher> {
    map[0 := Publisher(key, 0, stage0), 1 := Publisher(key, 1, stage1)]
  }

  lemma RaceStarts(key: Key, text: string) returns (es: seq<Event>)
    ensures Legal(es) && Exec(es) == Race(key, text, Draft, Draft, Racers(key, Chosen, Chosen), map[])
  {
    var s1 := EMPTY.(versions := map[0 := Version(key, text, Draft)]);
    var s2 := Race(key, text, Draft, Draft, map[], map[]);
    var s3 := s2.(publishers := map[0 := Publisher(key, 0, Chosen)]);
    var es1 := Then([], Create(0, key, text), EMPTY, s1);
    var es2 := Then(es1, Create(1, key, text), s1, s2);
    var es3 := Then(es2, Choose(0, key, 0), s2, s3);
    es := Then(es3, Choose(1, key, 1), s3, s2.(publishers := Racers(key, Chosen, Chosen)));
  }

  lemma RaceArchives(key: Key, text: string, status0: Status, status1: Status)
    ensures Archive(Race(key, text, status0, status1, map[], map[]).versions, key) ==
            Race(key, text, if status0 == Published then Archived else status0,
                 if status1 == Published then Archived else status1, map[], map[]).versions
  {
  }

  lemma FirstArchives(key: Key, text: string) returns (es: seq<Event>)
    ensures Legal(es) && Exec(es) == Race(key, text, Draft, Draft, Racers(key, HasArchived, Chosen), map[])
  {
    var es4 := RaceStarts(key, text);
    var s4 := Race(key, text, Draft, Draft, Racers(key, Chosen, Chosen), map[]);
    RaceArchives(key, text, Draft, Draft);
    assert s4.publishers[0 := Publisher(key, 0, HasArchived)] == Racers(key, HasArchived, Chosen);
    es := Then(es4, ArchiveOthers(0), s4, Race(key, text, Draft, Draft, Racers(key, HasArchived, Chosen), map[]));
  }

  lemma FirstWrites(key: Key, text: string) returns (es: seq<Event>)
    ensures Legal(es) && Exec(es) == Race(key, text, Published, Draft, Racers(key, HasMarked, Chosen), map[])
  {
    var es5 := FirstArchives(key, text);
    var s5 := Race(key, text, Draft, Draft, Racers(key, HasArchived, Chosen), map[]);
    assert s5.publishers[0 := Publisher(key, 0, HasMarked)] == Racers(key, HasMarked, Chosen);
    es := Then(es5, MarkOwn(0), s5, Race(key, text, Published, Draft, Racers(key, HasMarked, Chosen), map[]));
  }

  lemma SecondWrites(key: Key, text: string) returns (es: seq<Event>)
    ensures Legal(es) && Exec(es) == Race(key, text, Archived, Published, Racers(key, HasMarked, HasMarked), map[])
  {
    var es6 := FirstWrites(key, text);
    var s6, s7 := Exec(es6), Race(key, text, Archived, Draft, Racers(key, HasMarked, HasArchived), map[]);
    RaceArchives(key, text, Published, Draft);
    assert s6.publishers[1 := Publisher(key, 1, HasArchived)] == s7.publishers;
    var es7 := Then(es6, ArchiveOthers(1), s6, s7);
    assert s7.publishers[1 := Publisher(key, 1, HasMarked)] == Racers(key, HasMarked, HasMarked);
    es := Then(es7, MarkOwn(1), s7, Race(key, text, Archived, Published, Racers(key, HasMarked, HasMarked), map[]));
  }

  /**
   Without the hypothesis both publishes of a key can finish and yet hide the
   prompt: the definition row names a version the other publisher archived. The
   two versions of the key must have been numbered apart by hand, since the draft
   endpoint numbers none.
   */
  lemma RacingPublishersHidePrompt(key: Key, text: string) returns (es: seq<Event>)
    requires !Blank(text)
    ensures Legal(es) && Exec(es).publishers == map[]
    ensures LastFinished(es, key) == Some(0) && PublishedOf(Exec(es).versions, key) == {1}
    ensures Fetched(Exec(es).versions, Designated(Exec(es).definitions, key)) == None
  {
    var es8 := SecondWrites(key, text);
    var s8 := Exec(es8);
    var s9 := Race(key, text, Archived, Published, map[0 := Publisher(key, 0, HasMarked)], map[key := 1]);
    var s10 := Race(key, text, Archived, Published, map[], map[key := 0]);
    var es9 := Then(es8, Point(1), s8, s9);
    es := Then(es9, Point(0), s9, s10);
    assert es[..|es|-1] == es9;
  }
}
