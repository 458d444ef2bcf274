/** rime_engine.c: the engine gateway im.c is linked with. Every entry point tolerates a
    NULL engine, and the two string queries never answer NULL. */
module RimeEngine {
  import opened CStrings
  import opened Keysyms
  import opened Rime

  datatype Engine<S> = NullEngine | Engine(client: Client<S>)

  /** The library calls an engine has made so far; a NULL engine makes none. */
  function Calls<S>(e: Engine<S>): seq<Call>
  {
    if e.NullEngine? then [] else e.client.calls
  }

  /** im_engine_preedit_get */
  function PreeditGet<S>(e: Engine<S>): (r: CStr)
    ensures r.Str?
    ensures e.Engine? && e.client.context.preedit.Str? ==> r == e.client.context.preedit
    ensures e.NullEngine? || e.client.context.preedit.Null? ==> r == Str("")
  {
    if e.NullEngine? then Str("") else OrEmpty(e.client.context.preedit)
  }

  /** im_engine_commit_text */
  function CommitText<S>(e: Engine<S>): (r: CStr)
    ensures r.Str?
    ensures e.Engine? && e.client.commit.text.Str? ==> r == e.client.commit.text
    ensures e.NullEngine? || e.client.commit.text.Null? ==> r == Str("")
  {
    if e.NullEngine? then Str("") else OrEmpty(e.client.commit.text)
  }

  /** The candidates of the current page, as the last snapshot shows them. */
  function Candidates<S>(e: Engine<S>): seq<string>
  {
    if e.NullEngine? then [] else e.client.context.candidates
  }

  /** im_engine_candidate_len */
  function CandidateLen<S>(e: Engine<S>): (n: nat)
    ensures e.NullEngine? ==> n == 0
    ensures e.Engine? ==> n == |e.client.context.candidates|
  {
    |Candidates(e)|
  }

  /** im_engine_candidate_get: NULL exactly when the index is past the page. */
  function CandidateGet<S>(e: Engine<S>, index: nat): (r: CStr)
    ensures r.Str? <==> index < CandidateLen(e)
    ensures r.Str? ==> e.Engine? && r.s == e.client.context.candidates[index]
  {
    if e.NullEngine? || index >= |e.client.context.candidates| then Null
    else Str(e.client.context.candidates[index])
  }

  /** im_engine_key: the answer is exactly process_key's, and the snapshot is refreshed after it. */
  function Key<S>(lib: Lib<S>, e: Engine<S>, sym: Keysym, mods: nat): (r: (Engine<S>, bool))
    ensures e.NullEngine? ==> r == (e, false)
    ensures e.Engine? ==> r.0.Engine? && Fresh(lib, r.0.client)
    ensures e.Engine? ==> r.1 == lib.processKey(e.client.sess, sym, mods).1
    ensures e.Engine? ==> r.0.client.sess == lib.processKey(e.client.sess, sym, mods).0
    ensures e.Engine? ==> r.0.client.calls == e.client.calls + [ProcessKey(sym, mods)] + SnapshotCalls
  {
    if e.NullEngine? then (e, false)
    else
      var (c, processed) := SendKey(lib, e.client, sym, mods);
      (Engine(c), processed)
  }

  /** im_engine_page: next sends Page_Down, previous sends Page_Up. */
  function Page<S>(lib: Lib<S>, e: Engine<S>, next: bool): (r: Engine<S>)
    ensures e.NullEngine? ==> r == e
    ensures e.Engine? ==> r.Engine? && Fresh(lib, r.client)
    ensures e.Engine? ==> r.client.sess == lib.processKey(e.client.sess, if next then PageDown else PageUp, 0).0
    ensures e.Engine? ==>
      r.client.calls == e.client.calls + [ProcessKey(if next then PageDown else PageUp, 0)] + SnapshotCalls
  {
    if e.NullEngine? then e else Engine(SendKey(lib, e.client, PageKeysym(next), 0).0)
  }

  /** im_engine_cursor: right sends Right, left sends Left. */
  function Cursor<S>(lib: Lib<S>, e: Engine<S>, right: bool): (r: Engine<S>)
    ensures e.NullEngine? ==> r == e
    ensures e.Engine? ==> r.Engine? && Fresh(lib, r.client)
    ensures e.Engine? ==> r.client.sess == lib.processKey(e.client.sess, if right then Right else Left, 0).0
    ensures e.Engine? ==>
      r.client.calls == e.client.calls + [ProcessKey(if right then Right else Left, 0)] + SnapshotCalls
  {
    if e.NullEngine? then e else Engine(SendKey(lib, e.client, CursorKeysym(right), 0).0)
  }

  /** im_engine_delete: forward sends Delete, backward sends BackSpace. */
  function Delete<S>(lib: Lib<S>, e: Engine<S>, forward: bool): (r: Engine<S>)
    ensures e.NullEngine? ==> r == e
    ensures e.Engine? ==> r.Engine? && Fresh(lib, r.client)
    ensures e.Engine? ==> r.client.sess == lib.processKey(e.client.sess, if forward then Keysyms.Delete else BackSpace, 0).0
    ensures e.Engine? ==>
      r.client.calls == e.client.calls + [ProcessKey(if forward then Keysyms.Delete else BackSpace, 0)] + SnapshotCalls
  {
    if e.NullEngine? then e else Engine(SendKey(lib, e.client, DeleteKeysym(forward), 0).0)
  }

  /** im_engine_candidate_choose: an index past the page does nothing at all; otherwise
      the candidate is selected and the snapshot refreshed. */
  function CandidateChoose<S>(lib: Lib<S>, e: Engine<S>, index: nat): (r: Engine<S>)
    ensures index >= CandidateLen(e) ==> r == e
    ensures index < CandidateLen(e) ==> r.Engine? && Fresh(lib, r.client)
    ensures index < CandidateLen(e) ==>
      r.client.sess == lib.selectCandidate(e.client.sess, index).0 &&
      r.client.calls == e.client.calls + [SelectCandidateOnCurrentPage(index)] + SnapshotCalls
  {
    if e.NullEngine? || index >= |e.client.context.candidates| then e
    else Engine(SendSelect(lib, e.client, index).0)
  }

  /** im_engine_reset: clear the composition, commit what is left of it, then refresh. */
  function Reset<S>(lib: Lib<S>, e: Engine<S>): (r: Engine<S>)
    ensures e.NullEngine? ==> r == e
    ensures e.Engine? ==> r.Engine? && Fresh(lib, r.client)
    ensures e.Engine? ==>
      r.client.sess == lib.commitComposition(lib.clearComposition(e.client.sess)) &&
      r.client.calls == e.client.calls + [ClearComposition, CommitComposition] + SnapshotCalls
  {
    if e.NullEngine? then e
    else
      var c := e.client;
      var sess := lib.commitComposition(lib.clearComposition(c.sess));
      Engine(Refresh(lib, c.(sess := sess, calls := c.calls + [ClearComposition, CommitComposition])))
  }

  /** After any engine-touching operation the queries read what the library reports for
      the new session, so a stale snapshot can never be observed. */
  lemma QueriesReadLibrary<S>(lib: Lib<S>, e: Engine<S>)
    requires e.Engine? && Fresh(lib, e.client)
    ensures PreeditGet(e) == OrEmpty(lib.context(e.client.sess).preedit)
    ensures CommitText(e) == OrEmpty(lib.commit(e.client.sess).text)
    ensures CandidateLen(e) == |lib.context(e.client.sess).candidates|
  {
  }
}
