/** pinyin_engine.c: the alternative gateway over the same library. It adds a `running`
    flag; while the engine is NULL or not running, every query answers NULL, 0 or false
    and every command answers false without calling the library. */
module PinyinEngine {
  import opened CStrings
  import opened Keysyms
  import opened Rime
  import RimeEngine

  datatype Engine<S> = NullEngine | Engine(client: Client<S>, running: bool)

  /** The gate every query and command of this backend checks first. */
  predicate Running<S>(e: Engine<S>)
  {
    e.Engine? && e.running
  }

  /** im_engine_activate: only the not-running to running transition clears the composition. */
  function Activate<S>(lib: Lib<S>, e: Engine<S>): (r: Engine<S>)
    ensures e.NullEngine? ==> r == e
    ensures e.Engine? ==> Running(r)
    ensures Running(e) ==> r == e
    ensures e.Engine? && !e.running ==>
      r.client == e.client.(sess := lib.clearComposition(e.client.sess),
                            calls := e.client.calls + [ClearComposition])
  {
    if e.NullEngine? || e.running then e
    else
      var c := e.client;
      Engine(c.(sess := lib.clearComposition(c.sess), calls := c.calls + [ClearComposition]), true)
  }

  /** im_engine_activated */
  function Activated<S>(e: Engine<S>): (b: bool)
    ensures b <==> Running(e)
    ensures e.NullEngine? ==> !b
  {
    if e.NullEngine? then false else e.running
  }

  /** im_engine_deactivate: clears the flag and nothing else; fine on a NULL engine or
      one that never ran. */
  function Deactivate<S>(e: Engine<S>): (r: Engine<S>)
    ensures !Running(r)
    ensures e.NullEngine? ==> r == e
    ensures e.Engine? ==> r.Engine? && r.client == e.client
  {
    if e.NullEngine? then e else e.(running := false)
  }

  /** A repeated activate changes nothing. */
  lemma ActivateIdempotent<S>(lib: Lib<S>, e: Engine<S>)
    ensures Activate(lib, Activate(lib, e)) == Activate(lib, e)
  {
  }

  /** A repeated deactivate changes nothing, and deactivating then activating clears the
      composition once more. */
  lemma DeactivateIdempotent<S>(lib: Lib<S>, e: Engine<S>)
    ensures Deactivate(Deactivate(e)) == Deactivate(e)
    ensures e.Engine? ==> Activate(lib, Deactivate(e)).client.calls == e.client.calls + [ClearComposition]
  {
  }

  /** im_engine_preedit_get: the snapshot's preedit (possibly NULL) while running. */
  function PreeditGet<S>(e: Engine<S>): (r: CStr)
    ensures !Running(e) ==> r.Null?
    ensures Running(e) ==> r == e.client.context.preedit
  {
    if !Running(e) then Null else e.client.context.preedit
  }

  /** im_engine_commit_text: the snapshot's commit (possibly NULL) while running. */
  function CommitText<S>(e: Engine<S>): (r: CStr)
    ensures !Running(e) ==> r.Null?
    ensures Running(e) ==> r == e.client.commit.text
  {
    if !Running(e) then Null else e.client.commit.text
  }

  /** im_engine_candidate_len */
  function CandidateLen<S>(e: Engine<S>): (n: nat)
    ensures !Running(e) ==> n == 0
    ensures Running(e) ==> n == |e.client.context.candidates|
  {
    if !Running(e) then 0 else |e.client.context.candidates|
  }

  /** im_engine_candidate_get: NULL when not running or past the page. */
  function CandidateGet<S>(e: Engine<S>, index: nat): (r: CStr)
    ensures r.Str? <==> Running(e) && index < |e.client.context.candidates|
    ensures r.Str? ==> r.s == e.client.context.candidates[index]
  {
    if !Running(e) || index >= |e.client.context.candidates| then Null
    else Str(e.client.context.candidates[index])
  }

  /** Shared shape of the key-sending commands: gated, then process_key and a refresh. */
  function Send<S>(lib: Lib<S>, e: Engine<S>, sym: Keysym, mods: nat): (r: (Engine<S>, bool))
    ensures !Running(e) ==> r == (e, false)
    ensures Running(e) ==> Running(r.0) && Fresh(lib, r.0.client)
    ensures Running(e) ==> r.1 == lib.processKey(e.client.sess, sym, mods).1
    ensures Running(e) ==> r.0.client.sess == lib.processKey(e.client.sess, sym, mods).0
    ensures Running(e) ==> r.0.client.calls == e.client.calls + [ProcessKey(sym, mods)] + SnapshotCalls
  {
    if !Running(e) then (e, false)
    else
      var (c, processed) := SendKey(lib, e.client, sym, mods);
      (Engine(c, true), processed)
  }

  /** im_engine_key: exactly process_key's answer, the snapshot refreshed afterwards. */
  function Key<S>(lib: Lib<S>, e: Engine<S>, sym: Keysym, mods: nat): (r: (Engine<S>, bool))
    ensures !Running(e) ==> r == (e, false)
    ensures Running(e) ==> r.1 == lib.processKey(e.client.sess, sym, mods).1
    ensures Running(e) ==> Running(r.0) && Fresh(lib, r.0.client) && r.0.client.calls == e.client.calls + [ProcessKey(sym, mods)] + SnapshotCalls
    ensures Running(e) ==> r.0.client.sess == lib.processKey(e.client.sess, sym, mods).0
  {
    Send(lib, e, sym, mods)
  }

  /** im_engine_page: Page_Down for next, Page_Up for previous; answers process_key's result. */
  function Page<S>(lib: Lib<S>, e: Engine<S>, next: bool): (r: (Engine<S>, bool))
    ensures !Running(e) ==> r == (e, false)
    ensures Running(e) ==> r.1 == lib.processKey(e.client.sess, if next then PageDown else PageUp, 0).1
    ensures Running(e) ==>
      Running(r.0) && Fresh(lib, r.0.client) &&
      r.0.client.sess == lib.processKey(e.client.sess, if next then PageDown else PageUp, 0).0 &&
      r.0.client.calls == e.client.calls + [ProcessKey(if next then PageDown else PageUp, 0)] + SnapshotCalls
  {
    Send(lib, e, PageKeysym(next), 0)
  }

  /** im_engine_cursor: Right or Left; answers process_key's result. */
  function Cursor<S>(lib: Lib<S>, e: Engine<S>, right: bool): (r: (Engine<S>, bool))
    ensures !Running(e) ==> r == (e, false)
    ensures Running(e) ==> r.1 == lib.processKey(e.client.sess, if right then Right else Left, 0).1
    ensures Running(e) ==>
      Running(r.0) && Fresh(lib, r.0.client) &&
      r.0.client.sess == lib.processKey(e.client.sess, if right then Right else Left, 0).0 &&
      r.0.client.calls == e.client.calls + [ProcessKey(if right then Right else Left, 0)] + SnapshotCalls
  {
    Send(lib, e, CursorKeysym(right), 0)
  }

  /** im_engine_delete: Delete or BackSpace; answers process_key's result. */
  function Delete<S>(lib: Lib<S>, e: Engine<S>, forward: bool): (r: (Engine<S>, bool))
    ensures !Running(e) ==> r == (e, false)
    ensures Running(e) ==> r.1 == lib.processKey(e.client.sess, if forward then Keysyms.Delete else BackSpace, 0).1
    ensures Running(e) ==>
      Running(r.0) && Fresh(lib, r.0.client) &&
      r.0.client.sess == lib.processKey(e.client.sess, if forward then Keysyms.Delete else BackSpace, 0).0 &&
      r.0.client.calls == e.client.calls + [ProcessKey(if forward then Keysyms.Delete else BackSpace, 0)] + SnapshotCalls
  {
    Send(lib, e, DeleteKeysym(forward), 0)
  }

  /** im_engine_candidate_choose: false without selecting when gated or past the page;
      otherwise the library's answer, with the snapshot refreshed. */
  function CandidateChoose<S>(lib: Lib<S>, e: Engine<S>, index: nat): (r: (Engine<S>, bool))
    ensures !Running(e) || index >= |e.client.context.candidates| ==> r == (e, false)
    ensures Running(e) && index < |e.client.context.candidates| ==>
      r.1 == lib.selectCandidate(e.client.sess, index).1 &&
      Running(r.0) && Fresh(lib, r.0.client) &&
      r.0.client.sess == lib.selectCandidate(e.client.sess, index).0 &&
      r.0.client.calls == e.client.calls + [SelectCandidateOnCurrentPage(index)] + SnapshotCalls
  {
    if !Running(e) || index >= |e.client.context.candidates| then (e, false)
    else
      var (c, selected) := SendSelect(lib, e.client, index);
      (Engine(c, true), selected)
  }

  /** The two backends drive the library identically for page, cursor and delete: the
      same keysym, the same modifiers, the same refresh. */
  lemma SameCommandsAsRimeEngine<S>(lib: Lib<S>, c: Client<S>, next: bool, right: bool, forward: bool)
    ensures Page(lib, Engine(c, true), next).0.client == RimeEngine.Page(lib, RimeEngine.Engine(c), next).client
    ensures Cursor(lib, Engine(c, true), right).0.client == RimeEngine.Cursor(lib, RimeEngine.Engine(c), right).client
    ensures Delete(lib, Engine(c, true), forward).0.client == RimeEngine.Delete(lib, RimeEngine.Engine(c), forward).client
  {
  }
}
