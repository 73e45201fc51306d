/**
 The locked read-modify-write under every sidecar document.

 Any number of actors interleave the steps of `Keystore::update`: take the lock, read the
 document, apply the change, stage the new text, rename it over the document, let go. A kill
 may come between any two steps; the kernel then releases the lock and the staged copy stays.
 Readers never take the lock.
 */
module Update {
  import opened Base

  /** A sidecar: a JSON object of serialized members. An absent one reads as empty. */
  type Json = map<string, string>

  datatype Content = Whole(value: Json) | Unparsable(bytes: string)

  /** A document, or a staging file whose random name is taken by nobody else. */
  datatype Name = Doc(doc: string) | Temp(id: nat)

  datatype Edit = Edit(ticket: nat, doc: string, f: Json -> Json)

  /** How far one actor is through `update`. */
  datatype Phase =
    | Idle
    | Locked(edit: Edit)
    | Loaded(edit: Edit, value: Json)
    | Applied(edit: Edit, value: Json)
    | Staging(edit: Edit, value: Json, temp: nat)
    | Staged(edit: Edit, value: Json, temp: nat)
    | Renamed(edit: Edit)

  /** `log` is every rename so far; `done` and `failed` are the calls that returned. */
  datatype World = World(
    files: map<Name, Content>,
    owner: Option<nat>,
    phases: map<nat, Phase>,
    log: seq<Edit>,
    issued: nat,
    done: set<nat>,
    failed: set<nat>)

  datatype Event =
    | Begin(actor: nat, doc: string, f: Json -> Json)
    | Read(actor: nat)
    | Apply(actor: nat)
    | Create(actor: nat, temp: nat)
    | Fill(actor: nat)
    | Rename(actor: nat)
    | Unlock(actor: nat)
    | Fail(actor: nat)
    | Kill(actor: nat)
    | Clear(temp: nat)

  function PhaseOf(w: World, p: nat): Phase {
    if p in w.phases then w.phases[p] else Idle
  }

  function Get(files: map<Name, Content>, name: Name): Option<Content> {
    if name in files then Some(files[name]) else None
  }

  /** What `read_json` makes of a document. A present document that does not parse refuses. */
  function ReadDoc(o: Option<Content>): Result<Json> {
    match o
    case None => Ok(map[])
    case Some(Whole(v)) => Ok(v)
    case Some(Unparsable(_)) => Err(Corrupt)
  }

  function Enter(w: World, p: nat, phase: Phase): World {
    w.(phases := w.phases[p := phase])
  }

  /** The guard goes: the lock is free again and the call has failed. */
  function Abandon(w: World, p: nat, ticket: nat): World {
    w.(owner := None, phases := w.phases[p := Idle], failed := w.failed + {ticket})
  }

  function Drop(files: map<Name, Content>, temp: nat): map<Name, Content> {
    files - {Temp(temp)}
  }

  /** One step; an event that is not the actor's next step changes nothing. */
  function Step(w: World, e: Event): World {
    match e
    case Begin(p, doc, f) =>
      // Held by a peer, or by this very actor: refused, never waited out and never nested.
      if w.owner.Some? then w.(issued := w.issued + 1, failed := w.failed + {w.issued})
      else Enter(w, p, Locked(Edit(w.issued, doc, f))).(owner := Some(p), issued := w.issued + 1)
    case Read(p) =>
      (match PhaseOf(w, p)
       case Locked(edit) =>
         (match ReadDoc(Get(w.files, Doc(edit.doc)))
          case Ok(v) => Enter(w, p, Loaded(edit, v))
          case Err(_) => Abandon(w, p, edit.ticket))
       case _ => w)
    case Apply(p) =>
      (match PhaseOf(w, p)
       case Loaded(edit, v) => Enter(w, p, Applied(edit, edit.f(v)))
       case _ => w)
    case Create(p, temp) =>
      (match PhaseOf(w, p)
       case Applied(edit, v) =>
         if Temp(temp) in w.files then w
         else Enter(w, p, Staging(edit, v, temp)).(files := w.files[Temp(temp) := Unparsable("")])
       case _ => w)
    case Fill(p) =>
      (match PhaseOf(w, p)
       case Staging(edit, v, temp) => Enter(w, p, Staged(edit, v, temp)).(files := w.files[Temp(temp) := Whole(v)])
       case _ => w)
    case Rename(p) =>
      (match PhaseOf(w, p)
       case Staged(edit, v, temp) =>
         if Temp(temp) in w.files then
           Enter(w, p, Renamed(edit)).(files := Drop(w.files[Doc(edit.doc) := w.files[Temp(temp)]], temp), log := w.log + [edit])
         else Abandon(w, p, edit.ticket)
       case _ => w)
    case Unlock(p) =>
      (match PhaseOf(w, p)
       case Renamed(edit) => Enter(w, p, Idle).(owner := None, done := w.done + {edit.ticket})
       case _ => w)
    case Fail(p) =>
      (match PhaseOf(w, p)
       case Idle => w
       case Renamed(_) => w
       case Locked(edit) => Abandon(w, p, edit.ticket)
       case Loaded(edit, _) => Abandon(w, p, edit.ticket)
       case Applied(edit, _) => Abandon(w, p, edit.ticket)
       case Staging(edit, _, temp) => Abandon(w, p, edit.ticket).(files := Drop(w.files, temp))
       case Staged(edit, _, temp) => Abandon(w, p, edit.ticket).(files := Drop(w.files, temp)))
    case Kill(p) => Enter(w, p, Idle).(owner := if w.owner == Some(p) then None else w.owner)
    case Clear(temp) =>
      // Removing a reported leftover takes the lock too.
      if w.owner.Some? then w else w.(files := Drop(w.files, temp))
  }

  function After(w: World, events: seq<Event>): World {
    if events == [] then w else Step(After(w, events[..|events| - 1]), events[|events| - 1])
  }

  /** A keystore nobody is working on: any documents, any leftovers. */
  predicate AtRest(w: World) {
    w.owner == None && w.phases == map[] && w.log == [] && w.done == {} && w.failed == {}
  }

  // ---- what the documents hold ---------------------------------------------------------

  /** One edit on a document's content. An edit of a document that does not parse has no effect. */
  function Edited(o: Option<Content>, edit: Edit): Option<Content> {
    match ReadDoc(o)
    case Ok(v) => Some(Whole(edit.f(v)))
    case Err(_) => o
  }

  /** What a document holds once `log` has been applied to it, one edit after the other. */
  function Committed(o: Option<Content>, log: seq<Edit>, doc: string): Option<Content> {
    if log == [] then o
    else
      var before := Committed(o, log[..|log| - 1], doc);
      if log[|log| - 1].doc == doc then Edited(before, log[|log| - 1]) else before
  }

  // ---- the invariant -------------------------------------------------------------------

  /** What an actor holds is worked out from what its document holds now. */
  predicate Current(files: map<Name, Content>, phase: Phase) {
    match phase
    case Idle => true
    case Locked(_) => true
    case Loaded(edit, v) => ReadDoc(Get(files, Doc(edit.doc))) == Ok(v)
    case Applied(edit, v) => Edited(Get(files, Doc(edit.doc)), edit) == Some(Whole(v)) && Readable(files, edit)
    case Staging(edit, v, temp) =>
      && Edited(Get(files, Doc(edit.doc)), edit) == Some(Whole(v)) && Readable(files, edit) && Temp(temp) in files
    case Staged(edit, v, temp) =>
      && Edited(Get(files, Doc(edit.doc)), edit) == Some(Whole(v)) && Readable(files, edit)
      && Get(files, Temp(temp)) == Some(Whole(v))
    case Renamed(_) => true
  }

  predicate Readable(files: map<Name, Content>, edit: Edit) {
    ReadDoc(Get(files, Doc(edit.doc))).Ok?
  }

  /** Only the owner of the lock is doing anything. */
  ghost predicate Exclusive(w: World) {
    forall p: nat :: PhaseOf(w, p) != Idle ==> w.owner == Some(p)
  }

  /** Every document is its committed edits, in rename order. */
  ghost predicate Faithful(start: map<Name, Content>, w: World) {
    forall d :: Get(w.files, Doc(d)) == Committed(Get(start, Doc(d)), w.log, d)
  }

  predicate InLog(log: seq<Edit>, ticket: nat) {
    exists i :: 0 <= i < |log| && log[i].ticket == ticket
  }

  predicate OnceEach(log: seq<Edit>) {
    forall i, j :: 0 <= i < j < |log| ==> log[i].ticket != log[j].ticket
  }

  /** What returned `Ok` was renamed, what failed never was, and what is under way is neither yet. */
  ghost predicate Accounted(w: World) {
    && OnceEach(w.log)
    && (forall t: nat :: InLog(w.log, t) ==> t < w.issued && t !in w.failed)
    && (forall t :: t in w.done ==> InLog(w.log, t))
    && (forall t :: t in w.failed ==> t < w.issued)
    && (forall p: nat :: PhaseOf(w, p) != Idle ==> Placed(w, p))
  }

  /** A call under way is not in the log before its rename, and is from then on. */
  predicate Placed(w: World, p: nat)
    requires PhaseOf(w, p) != Idle
  {
    var t := PhaseOf(w, p).edit.ticket;
    if PhaseOf(w, p).Renamed? then InLog(w.log, t) else t < w.issued && !InLog(w.log, t) && t !in w.failed
  }

  ghost predicate Inv(start: map<Name, Content>, w: World) {
    && Exclusive(w) && Faithful(start, w) && Accounted(w)
    && forall p: nat :: Current(w.files, PhaseOf(w, p))
  }

  // ---- every step keeps it -------------------------------------------------------------

  lemma ExclusiveStep(w: World, e: Event)
    requires Exclusive(w)
    ensures Exclusive(Step(w, e))
  {
    var x := Step(w, e);
    forall q: nat | PhaseOf(x, q) != Idle
      ensures x.owner == Some(q)
    {
      assert PhaseOf(w, q) != Idle ==> w.owner == Some(q);
      if !e.Clear? {
        assert PhaseOf(w, e.actor) != Idle ==> w.owner == Some(e.actor);
      }
    }
  }

  /** A step of another actor, or of nobody, leaves what the owner works on alone. */
  lemma CurrentStep(w: World, e: Event, q: nat)
    requires Exclusive(w) && forall p: nat :: Current(w.files, PhaseOf(w, p))
    ensures Current(Step(w, e).files, PhaseOf(Step(w, e), q))
  {
    assert Current(w.files, PhaseOf(w, q));
    if !e.Clear? {
      assert PhaseOf(w, e.actor) != Idle ==> w.owner == Some(e.actor);
      assert Current(w.files, PhaseOf(w, e.actor));
    }
    assert PhaseOf(w, q) != Idle ==> w.owner == Some(q);
  }

  lemma CommittedSnoc(o: Option<Content>, log: seq<Edit>, edit: Edit, doc: string)
    ensures Committed(o, log + [edit], doc) ==
      if edit.doc == doc then Edited(Committed(o, log, doc), edit) else Committed(o, log, doc)
  {
    assert (log + [edit])[..|log|] == log;
  }

  lemma FaithfulStep(start: map<Name, Content>, w: World, e: Event)
    requires Faithful(start, w) && forall p: nat :: Current(w.files, PhaseOf(w, p))
    ensures Faithful(start, Step(w, e))
  {
    var x := Step(w, e);
    forall d ensures Get(x.files, Doc(d)) == Committed(Get(start, Doc(d)), x.log, d) {
      assert Get(w.files, Doc(d)) == Committed(Get(start, Doc(d)), w.log, d);
      if e.Rename? && PhaseOf(w, e.actor).Staged? {
        assert Current(w.files, PhaseOf(w, e.actor));
        CommittedSnoc(Get(start, Doc(d)), w.log, PhaseOf(w, e.actor).edit, d);
      }
    }
  }

  lemma InLogSnoc(log: seq<Edit>, edit: Edit, t: nat)
    ensures InLog(log + [edit], t) <==> InLog(log, t) || t == edit.ticket
  {
    var longer := log + [edit];
    if InLog(log, t) {
      var i :| 0 <= i < |log| && log[i].ticket == t;
      assert longer[i].ticket == t;
    }
    assert longer[|log|] == edit;
  }

  lemma OnceEachSnoc(log: seq<Edit>, edit: Edit)
    requires OnceEach(log) && !InLog(log, edit.ticket)
    ensures OnceEach(log + [edit])
  {
  }

  /** The renames a step adds to the log. */
  function Renaming(w: World, e: Event): seq<Edit> {
    if e.Rename? && PhaseOf(w, e.actor).Staged? && Temp(PhaseOf(w, e.actor).temp) in w.files
    then [PhaseOf(w, e.actor).edit] else []
  }

  lemma LogStep(w: World, e: Event)
    ensures Step(w, e).log == w.log + Renaming(w, e)
  {
  }

  lemma AccountedStep(w: World, e: Event)
    requires Exclusive(w) && Accounted(w)
    ensures Accounted(Step(w, e))
  {
    var x := Step(w, e);
    LogStep(w, e);
    if Renaming(w, e) != [] {
      var edit := PhaseOf(w, e.actor).edit;
      assert Placed(w, e.actor);
      OnceEachSnoc(w.log, edit);
      forall t: nat ensures InLog(x.log, t) <==> InLog(w.log, t) || t == edit.ticket {
        InLogSnoc(w.log, edit, t);
      }
    } else {
      assert x.log == w.log;
    }
    if !e.Clear? {
      assert PhaseOf(w, e.actor) != Idle ==> w.owner == Some(e.actor);
    }
    forall p: nat | PhaseOf(x, p) != Idle ensures Placed(x, p) {
      assert PhaseOf(w, p) != Idle ==> w.owner == Some(p);
      assert PhaseOf(w, p) != Idle ==> Placed(w, p);
    }
    assert forall p: nat :: PhaseOf(x, p) != Idle ==> Placed(x, p);
  }

  lemma {:induction false} RunsKeepTheInvariant(w: World, events: seq<Event>)
    requires AtRest(w)
    ensures Inv(w.files, After(w, events))
  {
    if events != [] {
      var before, e := After(w, events[..|events| - 1]), events[|events| - 1];
      RunsKeepTheInvariant(w, events[..|events| - 1]);
      ExclusiveStep(before, e);
      FaithfulStep(w.files, before, e);
      AccountedStep(before, e);
      forall p: nat ensures Current(Step(before, e).files, PhaseOf(Step(before, e), p)) {
        CurrentStep(before, e, p);
      }
    }
  }

  // ---- whole runs ----------------------------------------------------------------------

  /** No update is lost: after any run every document is its committed edits in rename order. */
  lemma NoLostUpdate(w: World, events: seq<Event>, doc: string)
    requires AtRest(w)
    ensures Get(After(w, events).files, Doc(doc)) == Committed(Get(w.files, Doc(doc)), After(w, events).log, doc)
  {
    RunsKeepTheInvariant(w, events);
  }

  lemma {:induction false} LogGrows(w: World, events: seq<Event>, i: nat)
    requires i <= |events|
    ensures |After(w, events[..i]).log| <= |After(w, events).log|
    ensures After(w, events[..i]).log == After(w, events).log[..|After(w, events[..i]).log|]
  {
    if i == |events| {
      assert events[..i] == events;
    } else {
      var n := |events| - 1;
      LogGrows(w, events[..n], i);
      assert events[..n][..i] == events[..i];
      LogStep(After(w, events[..n]), events[n]);
    }
  }

  /** A reader that takes no lock sees, at any moment, the document as of some commit. */
  lemma ReadersSeeCommits(w: World, events: seq<Event>, i: nat, doc: string)
    requires AtRest(w) && i <= |events|
    ensures exists k ::
      && 0 <= k <= |After(w, events).log|
      && Get(After(w, events[..i]).files, Doc(doc)) == Committed(Get(w.files, Doc(doc)), After(w, events).log[..k], doc)
  {
    NoLostUpdate(w, events[..i], doc);
    LogGrows(w, events, i);
    var k := |After(w, events[..i]).log|;
    assert Get(After(w, events[..i]).files, Doc(doc)) == Committed(Get(w.files, Doc(doc)), After(w, events).log[..k], doc);
  }

  /** A call that returned `Ok` is applied exactly once, one that returned an error never. */
  lemma AcknowledgedExactlyOnce(w: World, events: seq<Event>, ticket: nat)
    requires AtRest(w)
    ensures ticket in After(w, events).done ==> InLog(After(w, events).log, ticket)
    ensures ticket in After(w, events).failed ==> !InLog(After(w, events).log, ticket)
    ensures OnceEach(After(w, events).log)
  {
    RunsKeepTheInvariant(w, events);
  }

  /** Two actors are never inside the critical section together. */
  lemma OneWriterAtATime(w: World, events: seq<Event>, p: nat, q: nat)
    requires AtRest(w)
    requires PhaseOf(After(w, events), p) != Idle && PhaseOf(After(w, events), q) != Idle
    ensures p == q && After(w, events).owner == Some(p)
  {
    RunsKeepTheInvariant(w, events);
  }

  lemma {:induction false} UnparsableAbsorbs(o: Option<Content>, log: seq<Edit>, doc: string)
    requires o.Some? && o.value.Unparsable?
    ensures Committed(o, log, doc) == o
  {
    if log != [] {
      UnparsableAbsorbs(o, log[..|log| - 1], doc);
    }
  }

  lemma {:induction false} ParsableStays(o: Option<Content>, log: seq<Edit>, doc: string)
    requires ReadDoc(o).Ok?
    ensures ReadDoc(Committed(o, log, doc)).Ok?
  {
    if log != [] {
      ParsableStays(o, log[..|log| - 1], doc);
    }
  }

  /** No run ever truncates a document that parses, and none overwrites one that does not. */
  lemma DocumentsStayWhole(w: World, events: seq<Event>, doc: string)
    requires AtRest(w)
    ensures ReadDoc(Get(w.files, Doc(doc))).Ok? <==> ReadDoc(Get(After(w, events).files, Doc(doc))).Ok?
    ensures ReadDoc(Get(w.files, Doc(doc))).Err? ==> Get(After(w, events).files, Doc(doc)) == Get(w.files, Doc(doc))
  {
    NoLostUpdate(w, events, doc);
    if ReadDoc(Get(w.files, Doc(doc))).Ok? {
      ParsableStays(Get(w.files, Doc(doc)), After(w, events).log, doc);
    } else {
      UnparsableAbsorbs(Get(w.files, Doc(doc)), After(w, events).log, doc);
    }
  }

  // ---- an update nobody interferes with ------------------------------------------------

  /** The steps of one update, in their order. */
  function WholeUpdate(p: nat, doc: string, f: Json -> Json, temp: nat): seq<Event> {
    [Begin(p, doc, f), Read(p), Apply(p), Create(p, temp), Fill(p), Rename(p), Unlock(p)]
  }

  lemma OneMore(w: World, events: seq<Event>, e: Event)
    ensures After(w, events + [e]) == Step(After(w, events), e)
  {
    assert (events + [e])[..|events|] == events;
  }

  lemma FirstFour(w: World, p: nat, doc: string, f: Json -> Json, temp: nat, v: Json)
    requires w.owner == None && ReadDoc(Get(w.files, Doc(doc))) == Ok(v) && Temp(temp) !in w.files
    ensures
      var edit := Edit(w.issued, doc, f);
      After(w, WholeUpdate(p, doc, f, temp)[..4]) ==
        w.(owner := Some(p), issued := w.issued + 1, phases := w.phases[p := Staging(edit, f(v), temp)],
           files := w.files[Temp(temp) := Unparsable("")])
  {
    var es := WholeUpdate(p, doc, f, temp);
    assert es[..4] == [] + [es[0]] + [es[1]] + [es[2]] + [es[3]];
    OneMore(w, [], es[0]);
    OneMore(w, [] + [es[0]], es[1]);
    OneMore(w, [] + [es[0]] + [es[1]], es[2]);
    OneMore(w, [] + [es[0]] + [es[1]] + [es[2]], es[3]);
    var edit := Edit(w.issued, doc, f);
    assert w.phases[p := Locked(edit)][p := Loaded(edit, v)][p := Applied(edit, f(v))][p := Staging(edit, f(v), temp)] ==
      w.phases[p := Staging(edit, f(v), temp)];
  }

  /** A staged value is renamed over its document, and the lock let go. */
  lemma LastThree(y: World, p: nat, edit: Edit, v: Json, temp: nat)
    requires y.owner == Some(p) && PhaseOf(y, p) == Staging(edit, v, temp)
    ensures
      var x := Step(Step(Step(y, Fill(p)), Rename(p)), Unlock(p));
      && x.files == Drop(y.files[Doc(edit.doc) := Whole(v)], temp) && x.owner == None && PhaseOf(x, p) == Idle
      && x.log == y.log + [edit] && x.done == y.done + {edit.ticket} && x.failed == y.failed
  {
    var value: Content := Whole(v);
    assert Drop(y.files[Temp(temp) := value][Doc(edit.doc) := value], temp) == Drop(y.files[Doc(edit.doc) := value], temp);
  }

  lemma InOrder(w: World, p: nat, doc: string, f: Json -> Json, temp: nat)
    ensures
      var y := After(w, WholeUpdate(p, doc, f, temp)[..4]);
      After(w, WholeUpdate(p, doc, f, temp)) == Step(Step(Step(y, Fill(p)), Rename(p)), Unlock(p))
  {
    var es := WholeUpdate(p, doc, f, temp);
    assert es[..5] == es[..4] + [es[4]] && es[..6] == es[..5] + [es[5]] && es == es[..6] + [es[6]];
    OneMore(w, es[..4], es[4]);
    OneMore(w, es[..5], es[5]);
    OneMore(w, es[..6], es[6]);
  }

  /**
   An update that nobody gets in the way of goes through: of a document that parses, or is not
   there, it leaves what the change makes of it, and nothing else; the call returns and the lock is free.
   */
  lemma UpdatesGoThrough(w: World, p: nat, doc: string, f: Json -> Json, temp: nat)
    requires w.owner == None && ReadDoc(Get(w.files, Doc(doc))).Ok? && Temp(temp) !in w.files
    ensures
      var x, v := After(w, WholeUpdate(p, doc, f, temp)), ReadDoc(Get(w.files, Doc(doc))).value;
      && x.files == w.files[Doc(doc) := Whole(f(v))] && x.owner == None && PhaseOf(x, p) == Idle
      && x.log == w.log + [Edit(w.issued, doc, f)] && x.done == w.done + {w.issued} && x.failed == w.failed
  {
    var edit, v := Edit(w.issued, doc, f), ReadDoc(Get(w.files, Doc(doc))).value;
    FirstFour(w, p, doc, f, temp, v);
    InOrder(w, p, doc, f, temp);
    LastThree(After(w, WholeUpdate(p, doc, f, temp)[..4]), p, edit, f(v), temp);
    StagedAndGone(w.files, doc, temp, Whole(f(v)));
  }

  lemma StagedAndGone(files: map<Name, Content>, doc: string, temp: nat, c: Content)
    requires Temp(temp) !in files
    ensures Drop(files[Temp(temp) := Unparsable("")][Doc(doc) := c], temp) == files[Doc(doc) := c]
  {
  }

  /** It is refused where the lock is taken, and changes nothing. */
  lemma TakenLocksRefuse(w: World, p: nat, doc: string, f: Json -> Json)
    requires w.owner.Some?
    ensures Step(w, Begin(p, doc, f)) == w.(issued := w.issued + 1, failed := w.failed + {w.issued})
  {
  }

  /** And where the document is there and does not parse: the lock is free again, and nothing is written. */
  lemma UnparsableRefuses(w: World, p: nat, doc: string, f: Json -> Json)
    requires w.owner == None && ReadDoc(Get(w.files, Doc(doc))).Err?
    ensures
      var x := Step(Step(w, Begin(p, doc, f)), Read(p));
      && x.files == w.files && x.log == w.log && x.done == w.done && x.failed == w.failed + {w.issued} && x.owner == None
      && PhaseOf(x, p) == Idle
  {
    var edit := Edit(w.issued, doc, f);
    var y := Step(w, Begin(p, doc, f));
    assert PhaseOf(y, p) == Locked(edit) && y.files == w.files;
  }

  /** A step that fails on the way takes the staged copy with it, and leaves the documents alone. */
  lemma FailuresLeaveNothing(w: World, p: nat)
    requires PhaseOf(w, p) != Idle && !PhaseOf(w, p).Renamed?
    ensures
      var x, phase := Step(w, Fail(p)), PhaseOf(w, p);
      && x.files == (if phase.Staging? || phase.Staged? then Drop(w.files, phase.temp) else w.files)
      && x.owner == None && PhaseOf(x, p) == Idle && x.log == w.log && x.failed == w.failed + {phase.edit.ticket}
  {
  }
}
