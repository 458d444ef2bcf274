/** librime as both engine wrappers see it. The library's session is an abstract
    state `S`; its calls are uninterpreted functions over it. What is modelled is the
    wrappers' own bookkeeping: the snapshots they keep and the calls they make. */
module Rime {
  import opened CStrings
  import opened Keysyms

  /** The part of a RimeContext the wrappers read: the composition's preedit (which may
      be NULL) and the candidate texts on the current menu page. */
  datatype Context = Context(preedit: CStr, candidates: seq<string>)

  /** A RimeCommit: the committed text, which may be NULL. */
  datatype Commit = Commit(text: CStr)

  /** A zeroed structure, as RIME_STRUCT_INIT and RIME_STRUCT_CLEAR leave it. */
  const ClearedContext: Context := Context(Null, [])
  const ClearedCommit: Commit := Commit(Null)

  /** One call into the library, as recorded in a wrapper's call log. */
  datatype Call =
    | ProcessKey(sym: Keysym, mods: nat)
    | SelectCandidateOnCurrentPage(index: nat)
    | ClearComposition
    | CommitComposition
    | GetStatus
    | GetContext
    | GetCommit

  /** The library's session operations. The answers of `processKey` and `selectCandidate`
      are librime's "processed" and "selected" results. */
  datatype Lib<!S> = Lib(
    processKey: (S, Keysym, nat) -> (S, bool),
    selectCandidate: (S, nat) -> (S, bool),
    clearComposition: S -> S,
    commitComposition: S -> S,
    context: S -> Context,
    commit: S -> Commit)

  /** What a wrapper owns: the session, the status/context/commit snapshots it last
      fetched, and the log of the library calls it has made. */
  datatype Client<S> = Client(sess: S, context: Context, commit: Commit, calls: seq<Call>)

  /** A freshly created session, with the snapshots zeroed and no calls made yet. */
  function Start<S>(sess: S): (c: Client<S>)
    ensures c.context.preedit.Null? && |c.context.candidates| == 0 && c.commit.text.Null?
    ensures c.calls == []
  {
    Client(sess, ClearedContext, ClearedCommit, [])
  }

  /** The calls im_engine_update makes: status, then context, then commit. */
  const SnapshotCalls: seq<Call> := [GetStatus, GetContext, GetCommit]

  /** The snapshots show what the library reports for the current session. */
  predicate Fresh<S>(lib: Lib<S>, c: Client<S>)
  {
    c.context == lib.context(c.sess) && c.commit == lib.commit(c.sess)
  }

  /** im_engine_update: re-read status, context and commit from the session. */
  function Refresh<S>(lib: Lib<S>, c: Client<S>): (r: Client<S>)
    ensures Fresh(lib, r)
    ensures r.sess == c.sess
    ensures r.calls == c.calls + SnapshotCalls
  {
    Client(c.sess, lib.context(c.sess), lib.commit(c.sess), c.calls + SnapshotCalls)
  }

  /** process_key, then one refresh; the answer is process_key's. */
  function SendKey<S>(lib: Lib<S>, c: Client<S>, sym: Keysym, mods: nat): (r: (Client<S>, bool))
    ensures r.1 == lib.processKey(c.sess, sym, mods).1
    ensures r.0.sess == lib.processKey(c.sess, sym, mods).0
    ensures Fresh(lib, r.0)
    ensures r.0.calls == c.calls + [ProcessKey(sym, mods)] + SnapshotCalls
  {
    var (sess, processed) := lib.processKey(c.sess, sym, mods);
    (Refresh(lib, c.(sess := sess, calls := c.calls + [ProcessKey(sym, mods)])), processed)
  }

  /** select_candidate_on_current_page, then one refresh; the answer is the library's. */
  function SendSelect<S>(lib: Lib<S>, c: Client<S>, index: nat): (r: (Client<S>, bool))
    ensures r.1 == lib.selectCandidate(c.sess, index).1
    ensures r.0.sess == lib.selectCandidate(c.sess, index).0
    ensures Fresh(lib, r.0)
    ensures r.0.calls == c.calls + [SelectCandidateOnCurrentPage(index)] + SnapshotCalls
  {
    var (sess, selected) := lib.selectCandidate(c.sess, index);
    (Refresh(lib, c.(sess := sess, calls := c.calls + [SelectCandidateOnCurrentPage(index)])), selected)
  }

  /** The keysym each engine command is sent to librime as, with modifiers 0. */
  function PageKeysym(next: bool): Keysym
  {
    if next then PageDown else PageUp
  }

  function CursorKeysym(right: bool): Keysym
  {
    if right then Right else Left
  }

  function DeleteKeysym(forward: bool): Keysym
  {
    if forward then Delete else BackSpace
  }
}
