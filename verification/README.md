# wlpinyin key routing, in Dafny

This project models the core of wlpinyin, a Wayland input method. The centre is the
per-key router of `im.c` (`im_handle_key`). For every key the compositor delivers, it
decides one of three things:

- the key drives the composition engine through a fixed command table;
- the key is offered to the engine and handled there;
- the key goes back out, unchanged, through the virtual keyboard.

Around the router the model covers:

- the repeat timer armed and disarmed by `handle_key`, and the tick loop of `im_loop`;
- keymap de-duplication;
- the panel string `im_panel_update` builds;
- the two engine gateways, `rime_engine.c` (the one `im.c` is linked with, since only it
  defines `im_engine_reset`) and `pinyin_engine.c` (which gates everything on a `running`
  flag);
- the text-only renderer `text_renderer.c`.

Everything is functional. The router is a step function from a session `State` and one
key event to a new state and a list of `Action`s: engine commands, preedit updates,
commit strings, input-method commits with their serial, and virtual-keyboard keys.
librime is an abstract session type `S` whose calls are uninterpreted functions
(`Rime.Lib`). The wrappers' context and commit snapshots, and the log of the calls they
make into the library, are modelled exactly; the status snapshot is only logged as fetched. xkb's answers are inputs of each event:
the keysym, the modifier test, the serialized mask and whether a key repeats. So is the
answer of `im_toggle`. A C `const char *` is `CStrings.CStr` (`Null` or `Str`), and one
`char` stands for one byte.

wlpinyin.h:51-61 declares a composition buffer and pending/unreleased key lists. No
modelled file uses them, so they have no counterpart here. Presses reach `im_toggle` as
well as releases (im.c:168-169), and a toggle flips the mode and resets the engine
(im.c:171-172); it does not deactivate the engine.

The router and the repeat timer follow the code as written. The router keeps the page
cases of im.c:129-146, which name the key-direction values `XKB_KEY_UP` and
`XKB_KEY_DOWN` rather than the arrow keysyms. The timer passes the whole delay, as a
32-bit product, and the whole period as nanoseconds to `timerfd_settime`
(im.c:260-264). Corrected definitions stand beside them, with their intended properties
proved and a lemma showing where they agree with the code. The panel is the exception:
the router's preedit update carries `Panel.PanelText`, the panel text cut to the 511
bytes that fit. The buffer overrun of im.c:44-64 is modelled on its own, by
`Panel.AsWrittenEnd` and `Panel.AsWrittenOverrun`. All four defects are listed under
"## Findings".

## Model

| member | source | states |
|---|---|---|
| Router.HandleKey | im.c:69-198 | With no xkb state the event produces no output and changes nothing. Routing never touches the keymap or the repeat state. The serial advances (modulo 2^32) exactly when `Commit(old serial)` is emitted, and that commit is the last action. A forwarded key leaves serial and mode alone. A commit string appears only on the handled path, only non-empty, and always when the engine's commit text is non-empty. |
| Router.Finish | im.c:177-182 | The handled epilogue starts with the panel text and ends with the commit of the given serial. It holds the commit text exactly when that text is non-empty, and then exactly once: two actions without it, three with it. It holds no virtual-keyboard key. |
| Router.OneOutcome | im.c:177-196 | Once a keymap exists, every routed event has exactly one outcome: one input-method commit or one virtual-keyboard key. |
| Router.NotActiveOrRelease | im.c:84-196 | A release, or any key while inactive, never reaches the table or `im_engine_key`. If `im_toggle` fires, the mode flips, the serial advances and the engine is reset exactly as `handle_reset` resets it. Otherwise the same keycode goes out with the same pressed state and the state is unchanged. |
| Router.TableGate | im.c:84-154 | The table issues a command exactly when the key is pressed, the mode is active, no modifier is held, the preedit is non-empty and the keysym is in the table. The key is then consumed whatever the engine does: panel, optional commit, commit with the current serial, serial plus one. The engine afterwards is the one `Perform` leaves for the table's command. |
| Router.Perform | im.c:88-172 | Each engine command makes its library call with a refresh after it. A choice sends `select_candidate_on_current_page` with its index, and nothing when the index is past the page. Cursor sends Right or Left, page sends Page_Down for next and Page_Up for previous, and delete sends Delete or BackSpace, all with modifiers 0. A key sends its keysym and modifiers, and reset clears and commits the composition. A NULL engine is untouched. Only the key command has an answer. |
| Router.TableLibraryCalls | im.c:88-154 | For each table key, the engine's call log afterwards. Right/KP_Right sends Right and Left/KP_Left sends Left. The forward paging keys send Page_Down and the back paging keys send Page_Up. Delete sends Delete and BackSpace sends BackSpace. 1..9, KP_1..KP_9 and Space select index `keysym - base` (0 for Space) when the page has that many candidates, and otherwise leave the engine as it was. Every call is followed by one refresh, and a NULL engine is left alone. |
| Router.EngineOffer | im.c:158-196 | A press in active mode that the table does not take goes to `im_engine_key` with the serialized modifiers, and the engine afterwards is the one the key leaves. If the engine handles it, the epilogue follows and the serial advances. If not and the toggle fires, the mode flips, that engine is reset, the epilogue follows and the serial advances. Otherwise the press is forwarded and only the engine changes. |
| Router.CommandFor | im.c:87-155 | The table matches exactly the keysyms it names. 1..9 and KP_1..KP_9 choose `keysym - base`, which is in [0,8]. Space chooses 0. Right/KP_Right and Left/KP_Left move the cursor. `XKB_KEY_UP` (the key-direction value 0, so keysym NoSymbol), KP_Up, Page_Up, KP_Page_Up, `=` and KP_Add page forward. `XKB_KEY_DOWN` (value 1), KP_Down, Page_Down, KP_Page_Down, `-` and KP_Subtract page back. Delete deletes forward and BackSpace backward. |
| Router.ArrowsDoNotPage | im.c:129-146 | As written, the Up and Down arrows are not in the table, while keysyms 0 (NoSymbol) and 1 page forward and back. |
| Router.IntendedCommandFor | im.c:129-146 | Corrected table: Up pages forward, Down pages back, keysyms 0 and 1 are not in the table, and every other keysym maps as in the table as written. |
| Router.IntendedPaging | im.c:129-146 | With the corrected table, a keysym pages forward exactly when it is Up, KP_Up, Page_Up, KP_Page_Up, `=` or KP_Add, and pages back exactly when it is Down, KP_Down, Page_Down, KP_Page_Down, `-` or KP_Subtract. |
| Router.ToggleTwice | im.c:168-174 | Two toggles in a row restore the original mode, and the engine is reset. |
| Router.NextSerial | im.c:182 | `im_serial++` on a uint32: the successor modulo 2^32. |
| Router.Initial | im.c:367 | A new session has no keymap and no xkb state, and its serial starts at 1. |
| Router.HandleKeymap | im.c:211-231 | A keymap string equal to the stored one is ignored: no rebuild and no forward. A new one is stored, decides whether an xkb state exists, and is forwarded to the virtual keyboard. |
| Router.KeymapIdempotent | im.c:211-215 | Delivering the same keymap twice is the same as delivering it once. The second delivery emits nothing. |
| Router.HandleRepeatInfo | im.c:293-303 | Stores rate and delay through the uint32 cast and changes nothing else. |
| Router.HandleReset | im.c:305-311 | Activate, deactivate and unavailable leave mode, serial, keymap, xkb state and repeat settings alone. A NULL engine is untouched. Otherwise the library log gains `clear_composition`, `commit_composition` and the three snapshot fetches, and the snapshots match the session. |
| Router.OnKey | im.c:234-272 | The repeat timer is updated before routing, with the setting as written. A press of a repeating key becomes the repeat key. With 0 < delay < 1000 ms and rate > 1 it arms the timer with the delay and a period of 10^9/rate ns. With 1000 <= delay <= 4294 ms, or rate 1, the timer keeps its previous state. Every other event disarms it. The event then has one outcome, or none without a keymap. |
| Router.OnKeyRoutes | im.c:256-271 | The timer update does not influence routing. `handle_key` emits exactly the actions `im_handle_key` emits for the state before the update, and its new state is `im_handle_key`'s with only the repeat state replaced by the updated one. |
| Router.RoutingIgnoresRepeat | im.c:69-198 | `im_handle_key` never reads the repeat state: routing from a state with a different repeat state gives the same actions and the same state, apart from that repeat state. |
| Router.RouteAllOutcomes | im.c:487-492 | Routing n events gives n outcomes with a keymap and none without. The keymap flag and the repeat state pass through unchanged. |
| Router.TickEvents | im.c:482-492 | n timer expirations become 2n events of the repeat key, alternating press and release, starting with a press. |
| Router.HandleTicks | im.c:478-492 | The tick branch routes those 2n events straight to `im_handle_key`. There are 2n outcomes with a keymap, and the repeat timer is left alone. Zero ticks, or no keymap, change nothing and emit nothing. In inactive mode, with no toggle firing, the virtual keyboard receives n press/release pairs of the repeat key and the state is unchanged. |
| Router.HandleTicksUnfold | im.c:487-492 | One more tick first routes a press and then a release of the repeat keycode, both with the keysym resolved for it, and then the remaining ticks from the state they leave. The three action lists are concatenated in that order. |
| Router.RouteAllInactive | im.c:69-196 | Routing a sequence without a keymap emits nothing and changes nothing. In inactive mode, with no toggle firing, every event is forwarded as it came, in order, and the state is unchanged. |
| RepeatTimer.Update | im.c:256-268 | The update as written. On a press of a repeating key, a setting in range arms the timer with the delay and period, and a zero delay disarms it. With 1000 <= delay <= 4294 ms or rate 1 the timer keeps its state. In every case it ends disarmed, unchanged, or armed to fire within a second. Every other event disarms it. |
| RepeatTimer.CorrectedUpdate | im.c:256-268 | Corrected update: a press of a repeating key arms the timer with exactly the stored delay and period for every delay and rate, or disarms it for a zero delay. Every other event disarms it. |
| RepeatTimer.UpdateAgrees | im.c:256-268 | Where the written setting is in range (delay < 1000 ms, rate > 1), the update as written and the corrected one give the same result. |
| RepeatTimer.ArmSpec | im.c:260-263 | Corrected arm spec: both timespecs are in range. They denote the delay in milliseconds and a period of 10^9/rate ns. |
| RepeatTimer.ArmSpecAgrees | im.c:260-263 | Wherever the timer setting as written is valid, the corrected setting arms the timer identically. |
| RepeatTimer.AsWrittenArmSpec | im.c:260-263 | The timer setting as written denotes the period 10^9/rate ns and a delay congruent to delay·10^6 ns modulo 2^32, the 32-bit product. Up to 4294 ms it is that exact delay, and it is then in range only when delay < 1000 ms and rate > 1. |
| RepeatTimer.AsWrittenArmRejected | im.c:260-264 | With 1000 <= delay <= 4294 ms, or rate 1, `timerfd_settime` rejects the timer setting as written, and the timer stays as it was. |
| RepeatTimer.AsWrittenDelayWraps | im.c:260-264 | At 4295 ms the 32-bit product wraps to 32704 ns. That setting is in range, so the timer fires after 32704 ns. |
| RepeatTimer.SetInfo | im.c:301-302 | The int32 settings are stored as their uint32 casts. Non-negative values are kept as they are. |
| RepeatTimer.ToU32 | im.c:301-302 | `(uint32_t)` of an int32: the same value modulo 2^32, and unchanged when non-negative. |
| Panel.PanelUpdate | im.c:43-67 | The text `im_panel_update` builds is the panel of the engine, shorter than its buffer. An empty preedit gives `""`. |
| Panel.AppendCandidates | im.c:56-63 | The loop over the candidate count, each candidate fetched by index, appends exactly the numbered items of the page after the header. |
| Panel.ItemsAppend | im.c:58-63 | Each loop step appends `" [i+1]cand"` for the next candidate, in page order. |
| Panel.PanelText | im.c:44-66 | Corrected panel text: shorter than the 512-byte buffer and a prefix of `preedit + " <- " + items`. It is the whole of that text when it fits, and exactly its first 511 bytes when it does not. An empty preedit gives `""`. |
| Panel.ItemsLength | im.c:58-63 | The summed lengths of the candidate pieces equal the length of the items text. |
| Panel.AsWrittenEnd | im.c:56-64 | `bufptr` as written is the full formatted length, whether or not it fits the buffer. |
| Panel.AsWrittenOverrun | im.c:44-64 | Some preedit puts `bufptr`, where the terminating NUL is written, at or past the buffer's 512 bytes. |
| RimeEngine.PreeditGet | rime_engine.c:137-143 | Never NULL. It returns the snapshot's preedit, or `""` for a NULL engine or a NULL field. |
| RimeEngine.CommitText | rime_engine.c:189-194 | Never NULL. It returns the snapshot's commit text, or `""` for a NULL engine or a NULL field. |
| RimeEngine.CandidateLen | rime_engine.c:170-175 | 0 for a NULL engine, otherwise the number of candidates on the page. |
| RimeEngine.CandidateGet | rime_engine.c:177-187 | NULL exactly when the index is at or past the page's candidate count, otherwise that candidate's text. |
| RimeEngine.CandidateChoose | rime_engine.c:196-208 | An index past the page does nothing: no selection and no refresh. Otherwise the session is the one `select_candidate_on_current_page` leaves, then one refresh. |
| RimeEngine.Key | rime_engine.c:145-158 | Answers exactly `process_key`'s result, and the session is the one `process_key` leaves. Then it refreshes status, context and commit once. A NULL engine answers false. |
| RimeEngine.Page | rime_engine.c:160-168 | Next sends Page_Down and previous sends Page_Up, with modifiers 0. The session is the one `process_key` leaves, then one refresh. |
| RimeEngine.Cursor | rime_engine.c:210-219 | Right sends Right and left sends Left, with modifiers 0. The session is the one `process_key` leaves, then one refresh. |
| RimeEngine.Delete | rime_engine.c:221-231 | Forward sends Delete and backward sends BackSpace, with modifiers 0. The session is the one `process_key` leaves, then one refresh. |
| RimeEngine.Reset | rime_engine.c:233-240 | `clear_composition`, then `commit_composition`, then one refresh, in that order. |
| RimeEngine.QueriesReadLibrary | rime_engine.c:36-50 | After a refresh, the queries report what the library reports for the current session. |
| Rime.Refresh | rime_engine.c:36-50 | `im_engine_update` fetches status, context and commit, in that order, and the snapshots then match the session. |
| Rime.Start | rime_engine.c:115-117 | A new session's snapshots are zeroed: NULL preedit, no candidates, NULL commit. |
| PinyinEngine.Activate | pinyin_engine.c:139-147 | Sets `running`. The composition is cleared only on the not-running to running transition; activating a running engine changes nothing. |
| PinyinEngine.ActivateIdempotent | pinyin_engine.c:143-146 | A repeated activate is a no-op. |
| PinyinEngine.Activated | pinyin_engine.c:149-154 | Reports `running`, and false for a NULL engine. |
| PinyinEngine.Deactivate | pinyin_engine.c:156-163 | Clears `running` and nothing else. It is safe on a NULL engine or one never activated. |
| PinyinEngine.DeactivateIdempotent | pinyin_engine.c:156-163 | A repeated deactivate is a no-op. Activating afterwards clears the composition again. |
| PinyinEngine.PreeditGet | pinyin_engine.c:165-170 | NULL when NULL or not running. Otherwise the snapshot's preedit, which may itself be NULL. |
| PinyinEngine.Key | pinyin_engine.c:172-185 | False with no library call when gated. Otherwise exactly `process_key`'s answer and the session it leaves, then one refresh. |
| PinyinEngine.Page | pinyin_engine.c:187-197 | Gated. Sends Page_Down or Page_Up and answers the processed result. The session is the one `process_key` leaves, then one refresh. |
| PinyinEngine.CandidateLen | pinyin_engine.c:199-204 | 0 when gated, otherwise the page's candidate count. |
| PinyinEngine.CandidateGet | pinyin_engine.c:206-216 | NULL when gated or past the page, otherwise the candidate's text. |
| PinyinEngine.CommitText | pinyin_engine.c:218-223 | NULL when gated, otherwise the snapshot's commit text. |
| PinyinEngine.CandidateChoose | pinyin_engine.c:225-239 | False without selecting when gated or past the page. Otherwise the library's answer and the session the selection leaves, then one refresh. |
| PinyinEngine.Cursor | pinyin_engine.c:241-252 | Gated. Sends Right or Left and answers the processed result. The session is the one `process_key` leaves, then one refresh. |
| PinyinEngine.Delete | pinyin_engine.c:254-266 | Gated. Sends Delete or BackSpace and answers the processed result. The session is the one `process_key` leaves, then one refresh. |
| PinyinEngine.Send | pinyin_engine.c:187-197 | When gated, nothing changes and no library call is made. When running, the call is made, the session is the one `process_key` leaves, and the engine stays running with a fresh snapshot. |
| PinyinEngine.SameCommandsAsRimeEngine | pinyin_engine.c:191-192 | Page, cursor and delete drive the library exactly as `rime_engine.c` does. |
| TextRenderer.Render | text_renderer.c:17-47 | A NULL or empty preedit gives `""` with range (0,0). Otherwise the text is `"[page] "`, then the preedit, then the listed candidates, and both ends of the range move by the prefix length. |
| TextRenderer.SelectionShift | text_renderer.c:29-32 | The shifted range keeps its order, stays inside the preedit portion, and selects the same characters it selected in the preedit. |
| TextRenderer.Listed | text_renderer.c:34-43 | The loop lists min(page_size - i, remaining) candidates, and none once i has reached page_size. |
| TextRenderer.ListedItem | text_renderer.c:35-41 | Item j of the list is the j-th remaining candidate, numbered as index i + j and bracketed when that index is the highlighted one. |
| TextRenderer.ListedCandidates | text_renderer.c:35-41 | At most page_size candidates, fewer when the iterator runs out. Only the highlighted one is bracketed. |
| TextRenderer.CandidateItemShape | text_renderer.c:39-41 | A candidate item starts with a space. The next character is `[` exactly when the item is highlighted, and a highlighted item closes with `]`. |
| TextRenderer.CandidateItemNumber | text_renderer.c:39-40 | After the space and optional bracket, the item's digits read back to i + 1, followed by a space. |
| TextRenderer.CandidateItemText | text_renderer.c:40-41 | The rest of the item up to the closing bracket is the candidate's text. A NULL text prints as nothing, so the item is only the number and its decorations. |
| TextRenderer.Prefix | text_renderer.c:29 | The page prefix starts with `[` and ends with `] `. |
| TextRenderer.PrefixContents | text_renderer.c:29 | Between the brackets the prefix carries the page number: its digits read back to the number, after a `-` when it is negative. |
| Decimal.FromNat | im.c:61-62 | `%d` of a non-negative number: at least one digit, all digits, and a leading zero only for 0. |
| Decimal.ValueOfFromNat | im.c:61-62 | Reading back the printed digits gives the number printed. |
| Decimal.FromInt | text_renderer.c:29 | `%d` of a signed number: a `-` exactly when the number is negative, then digits that read back to its magnitude. |
| CStrings.OrEmpty | rime_engine.c:142 | `p ? p : ""` is never NULL and keeps non-NULL strings. |

## Left out

- Event loop and setup (`main.c`, the poll and signal handling of `im_loop`, `im_setup`, `im_destroy`, registry binding): Wayland plumbing. Only the serial's start value is kept.
- `popup_renderer.c`: cairo/pango drawing, shared-memory buffers and frame callbacks.
- xkb internals: keysym resolution, `xkb_state_update_key` (im.c:74-75), the modifier test (im.c:79-83), modifier serialization and `xkb_keymap_key_repeats` are inputs of each event. Before the first keymap, `handle_key` passes a NULL `xkb_state` to `xkb_state_key_get_one_sym` (im.c:246) and a NULL `xkb_keymap` to `xkb_keymap_key_repeats` (im.c:258). The NULL check at im.c:71 is in `im_handle_key`, so it does not guard those two calls. Here the keysym and the repeat answer are inputs, and those NULL calls are not modelled.
- `handle_modifiers` (im.c:274-291): it updates the xkb state and passes the modifiers to the virtual keyboard. It is xkb state plus a pass-through, so it is not modelled.
- `im_toggle` is not defined in any file of this model. Its answer for each event is an input (`KeyEnv.toggle`), so any history it keeps is abstracted away.
- librime itself (session creation, schema selection, deployment, `process_key` semantics): library calls are uninterpreted functions. The content of the status snapshot is not modelled, only that it is fetched. The `free_*` calls around each fetch are memory management and are not logged.
- Memory handling: `mmap`/`munmap` and `strdup`/`free` of the keymap string. The first `xkb_keymap_new_from_string` result at im.c:222-223 is leaked, because im.c:225-227 overwrites it.
- `im_engine_new`, `im_engine_free` and `handle_notify`: engine construction and deployment.
- The composition buffer and pending/unreleased key lists declared in wlpinyin.h:51-61: no code among the modelled files implements them. That header is from another revision than im.c.
- `config.c` and `config.h`: the toggle-sequence strings and colours. The toggle is an input.
- Timestamps of virtual-keyboard events, `wl_display_flush` and debug logging.
- Router.OnKey: requires a non-zero rate for a press of a repeating key, because im.c:262 divides by it. The protocol's "rate 0 disables repeat" case is therefore not covered.
- RepeatTimer.Update: requires a non-zero rate when arming, for the same division.
- RepeatTimer.CorrectedUpdate: requires a non-zero rate when arming, for the same division.
- RepeatTimer.AsWrittenArmSpec: takes the stored delay and rate as uint32, following the casts at im.c:301-302. wlpinyin.h:45-46 declares the fields `int32_t`; that header is from another revision. Either reading leaves the product `delay * 1000000` in range exactly when it is below 10^9 modulo 2^32, and with the same value, so the timer behaves alike. A negative rate stored as int32 would give a negative period rather than the unsigned quotient modelled here.
- TextRenderer.Render: requires the whole text to fit its 2048-byte buffer. Beyond that, `bufptr` passes the end of the buffer, and the next candidate snprintf (text_renderer.c:39) receives the wrapped size `sizeof buf - bufptr`. That overflow is not modelled.
- RimeEngine.CandidateGet and RimeEngine.CandidateChoose: the index is a `nat`. The C `int` index is never checked against negative values, and the router only passes 0..8.
- `text_renderer.c` calls an engine interface (`im_engine_preedit`, `im_engine_context`, the `im_engine_cand_*` iterator) that neither backend shown defines. Its preedit, page context and candidate list are therefore inputs.

## Findings

| source | as written | input that shows it | evidently intended | confidence | as-written member | corrected member |
|---|---|---|---|---|---|---|
| im.c:44-64 | Each snprintf return value is added to `bufptr` in a 512-byte buffer, then `buf[bufptr] = 0` is written. | A 600-byte preedit with no candidates: `bufptr` becomes 604 and the NUL lands past the buffer. With candidates, the next snprintf also receives a wrapped size. | The panel text cut to the 511 bytes that fit. | high (not executed) | Panel.AsWrittenEnd, Panel.AsWrittenOverrun | Panel.PanelText |
| im.c:260-264 | The whole delay goes in `it_value.tv_nsec` (`delay * 1000000`) and the whole period in `it_interval.tv_nsec`, with `tv_sec` 0. | A delay from 1000 to 4294 ms, or a rate of 1: a `tv_nsec` is 10^9 or more, `timerfd_settime` fails with EINVAL and the held key never repeats. | The same durations split into `tv_sec` and `tv_nsec`. | high (not executed) | RepeatTimer.AsWrittenArmRejected, RepeatTimer.Update | RepeatTimer.ArmSpec, RepeatTimer.CorrectedUpdate |
| im.c:260 | `delay * 1000000` is a 32-bit product. | A delay of 4295 ms: the product wraps to 32704 ns, which is in range, so the held key starts repeating almost at once. | The full delay, as a 64-bit duration split into `tv_sec` and `tv_nsec`. | high (not executed) | RepeatTimer.AsWrittenDelayWraps | RepeatTimer.ArmSpec, RepeatTimer.CorrectedUpdate |
| im.c:129-146 | The page cases name `XKB_KEY_UP` and `XKB_KEY_DOWN`, the xkbcommon key-direction values 0 and 1 (im.c:75 passes them to `xkb_state_update_key` as such). | The Up arrow (0xff52) with a non-empty preedit goes to `im_engine_key` instead of paging. A key whose keysym is NoSymbol (0) pages forward. | `XKB_KEY_Up` and `XKB_KEY_Down`, the arrow keysyms. | high (not executed) | Router.ArrowsDoNotPage | Router.IntendedCommandFor, Router.IntendedPaging |
