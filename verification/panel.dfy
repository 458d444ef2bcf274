/** im_panel_update in im.c: the preedit string im.c shows, built from the engine's
    preedit and its page of candidates into a 512-byte buffer. */
module Panel {
  import opened Decimal
  import RimeEngine

  /** sizeof buf: the text that fits is at most BufSize - 1 bytes, plus the NUL. */
  const BufSize: nat := 512

  /** One candidate as `" [%d]%s"` prints it. */
  function Item(n: nat, text: string): string
  {
    " [" + FromNat(n) + "]" + text
  }

  /** The candidates, numbered from `first`, in page order. */
  function Items(cands: seq<string>, first: nat): string
    decreases |cands|
  {
    if |cands| == 0 then "" else Item(first, cands[0]) + Items(cands[1..], first + 1)
  }

  /** Appending a candidate to the page appends its item: the numbering follows the
      loop index. */
  lemma {:induction false} ItemsAppend(cands: seq<string>, first: nat, text: string)
    ensures Items(cands + [text], first) == Items(cands, first) + Item(first + |cands|, text)
    decreases |cands|
  {
    if |cands| == 0 {
      assert cands + [text] == [text];
      assert [text][1..] == [];
    } else {
      assert (cands + [text])[0] == cands[0];
      assert (cands + [text])[1..] == cands[1..] + [text];
      ItemsAppend(cands[1..], first + 1, text);
    }
  }

  /** The text the formatting asks for, before it meets the buffer: nothing when the
      preedit is empty, else the preedit, `" <- "` and the numbered candidates. */
  function FullText(preedit: string, cands: seq<string>): string
  {
    if |preedit| == 0 then "" else preedit + " <- " + Items(cands, 1)
  }

  /** What reaches set_preedit_string: the formatted text, cut to the buffer the way
      snprintf cuts it. */
  function PanelText(preedit: string, cands: seq<string>): (r: string)
    ensures |r| < BufSize
    ensures r <= FullText(preedit, cands)
    ensures |FullText(preedit, cands)| < BufSize ==> r == FullText(preedit, cands)
    ensures BufSize <= |FullText(preedit, cands)| ==> |r| == BufSize - 1
    ensures |preedit| == 0 ==> r == ""
    ensures 0 < |preedit| && |preedit| + 4 < BufSize ==> preedit + " <- " <= r
  {
    var full := FullText(preedit, cands);
    if |full| < BufSize then full else full[..BufSize - 1]
  }

  /** The panel of an engine, from its preedit and its current page. */
  function PanelFor<S>(e: RimeEngine.Engine<S>): string
  {
    PanelText(RimeEngine.PreeditGet(e).s, RimeEngine.Candidates(e))
  }

  /** im_panel_update: an empty preedit clears the panel; otherwise the preedit header,
      the candidates, and the cut at the buffer. The text it builds is the panel of the
      engine. */
  method PanelUpdate<S>(e: RimeEngine.Engine<S>) returns (text: string)
    ensures text == PanelFor(e)
    ensures |text| < BufSize
  {
    var preedit := RimeEngine.PreeditGet(e).s;
    if |preedit| == 0 {
      return "";
    }
    var buf := AppendCandidates(e, preedit + " <- ");
    assert buf == FullText(preedit, RimeEngine.Candidates(e));
    text := if |buf| < BufSize then buf else buf[..BufSize - 1];
  }

  /** im_panel_update's loop: the candidate count first, then each candidate fetched by
      index and appended as `" [i+1]cand"`. */
  method AppendCandidates<S>(e: RimeEngine.Engine<S>, start: string) returns (buf: string)
    ensures buf == start + Items(RimeEngine.Candidates(e), 1)
  {
    var len := RimeEngine.CandidateLen(e);
    ghost var cands := RimeEngine.Candidates(e);
    buf := start;
    var i := 0;
    while i < len
      invariant 0 <= i <= len
      invariant buf == start + Items(cands[..i], 1)
    {
      var cand := RimeEngine.CandidateGet(e, i);
      ItemsAppend(cands[..i], 1, cand.s);
      assert cands[..i + 1] == cands[..i] + [cand.s];
      buf := buf + Item(i + 1, cand.s);
      i := i + 1;
    }
    assert cands[..len] == cands;
  }

  /** The summed lengths of the items, as the snprintf return values add them up. */
  function ItemsLength(cands: seq<string>, first: nat): (n: nat)
    ensures n == |Items(cands, first)|
    decreases |cands|
  {
    if |cands| == 0 then 0 else 3 + |FromNat(first)| + |cands[0]| + ItemsLength(cands[1..], first + 1)
  }

  /** bufptr as written: advanced by each snprintf's return value, which is the length the
      piece would have had, whether or not it fitted. `buf[bufptr] = 0` then writes at
      this index. */
  function AsWrittenEnd(preedit: string, cands: seq<string>): (n: nat)
    requires |preedit| > 0
    ensures n == |FullText(preedit, cands)|
  {
    |preedit| + 4 + ItemsLength(cands, 1)
  }

  /** A long enough preedit puts bufptr past the 512-byte buffer, so the terminating
      write lands outside it. */
  lemma AsWrittenOverrun()
    ensures exists preedit: string :: |preedit| > 0 && AsWrittenEnd(preedit, []) >= BufSize
  {
    var preedit := seq(600, _ => 'a');
    assert AsWrittenEnd(preedit, []) == 604;
  }
}
