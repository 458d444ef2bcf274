/** text_renderer.c: the text-only panel. It shows `"[page] "`, the preedit, then the
    candidates of the page, and shifts the preedit's selection past the page prefix. The
    engine's preedit, page context and candidate iterator come in as inputs. */
module TextRenderer {
  import opened CStrings
  import opened Decimal

  /** sizeof buf */
  const BufSize: nat := 2048

  /** im_preedit_t: the preedit text and its selection. */
  datatype Preedit = Preedit(text: CStr, begin: int, end: int)

  /** im_context_t: page number, page size and the highlighted index. */
  datatype PageContext = PageContext(pageNo: int, pageSize: int, highlighted: int)

  /** The arguments of set_preedit_string: text, selection begin and end. */
  datatype Rendered = Rendered(text: string, begin: int, end: int)

  /** `"[%d] "` of the page number. */
  function Prefix(pageNo: int): (r: string)
    ensures 4 <= |r| && r[0] == '[' && r[|r| - 2..] == "] "
  {
    "[" + FromInt(pageNo) + "] "
  }

  /** Between the brackets the prefix carries the page number: its digits read back to
      the number, after a minus sign when it is negative. */
  lemma PrefixContents(pageNo: int)
    ensures var r := Prefix(pageNo);
      pageNo >= 0 ==> AllDigits(r[1..|r| - 2]) && ValueOf(r[1..|r| - 2]) == pageNo
    ensures var r := Prefix(pageNo);
      pageNo < 0 ==> r[1] == '-' && AllDigits(r[2..|r| - 2]) && ValueOf(r[2..|r| - 2]) == -pageNo
  {
    var d := FromInt(pageNo);
    var r := Prefix(pageNo);
    assert r[1..|r| - 2] == d;
    assert pageNo < 0 ==> r[2..|r| - 2] == d[1..];
  }

  /** `" %s%d %s%s"`: the number and text of candidate i, bracketed when highlighted; a
      NULL text prints as nothing. */
  function CandidateItem(i: nat, highlighted: bool, text: CStr): string
  {
    Opening(highlighted) + FromNat(i + 1) + " " + OrEmpty(text).s + Closing(highlighted)
  }

  /** The space before a candidate, then its opening bracket when highlighted. */
  function Opening(highlighted: bool): (r: string)
    ensures |r| == if highlighted then 2 else 1
    ensures r[0] == ' ' && (highlighted ==> r[1] == '[')
  {
    if highlighted then " [" else " "
  }

  /** The closing bracket of a highlighted candidate. */
  function Closing(highlighted: bool): (r: string)
    ensures |r| == if highlighted then 1 else 0
    ensures highlighted ==> r[0] == ']'
  {
    if highlighted then "]" else ""
  }

  /** The pieces of `a + d + " " + t + c`, cut back out. */
  lemma Pieces(a: string, d: string, t: string, c: string)
    ensures var r := a + d + " " + t + c;
      && r[..|a|] == a
      && r[|a|..|a| + |d|] == d
      && r[|a| + |d|] == ' '
      && r[|a| + |d| + 1..|r| - |c|] == t
      && r[|r| - |c|..] == c
  {
  }

  /** A candidate item opens with a space and, exactly when highlighted, a `[`; a
      highlighted one closes with `]`. */
  lemma CandidateItemShape(i: nat, highlighted: bool, text: CStr)
    ensures var r := CandidateItem(i, highlighted, text);
      && 3 <= |r| && r[0] == ' '
      && (r[1] == '[' <==> highlighted)
      && (highlighted ==> r[|r| - 1] == ']')
  {
  }

  /** After the space and the optional bracket, a candidate item carries the digits of
      i + 1, then a space. */
  lemma CandidateItemNumber(i: nat, highlighted: bool, text: CStr)
    ensures var r := CandidateItem(i, highlighted, text);
      var k := if highlighted then 2 else 1;
      var n := |FromNat(i + 1)|;
      && k + n + 1 <= |r|
      && AllDigits(r[k..k + n]) && ValueOf(r[k..k + n]) == i + 1
      && r[k + n] == ' '
  {
    Pieces(Opening(highlighted), FromNat(i + 1), OrEmpty(text).s, Closing(highlighted));
    ValueOfFromNat(i + 1);
  }

  /** The rest of a candidate item, up to the closing bracket, is the candidate's text; a
      NULL text prints as nothing. */
  lemma CandidateItemText(i: nat, highlighted: bool, text: CStr)
    ensures var r := CandidateItem(i, highlighted, text);
      var k := if highlighted then 2 else 1;
      var n := |FromNat(i + 1)|;
      && k + n + 1 + (k - 1) <= |r|
      && r[k + n + 1..|r| - (k - 1)] == OrEmpty(text).s
    ensures text.Null? ==> |CandidateItem(i, highlighted, text)| == |FromNat(i + 1)| + (if highlighted then 4 else 2)
  {
  }

  function Min(a: int, b: int): int
  {
    if a < b then a else b
  }

  /** The loop over the candidate iterator: it stops when i reaches page_size or when the
      iterator runs dry, whichever comes first. `rest` is what the iterator still holds. */
  function Listed(rest: seq<CStr>, ctx: PageContext, i: nat): (items: seq<string>)
    ensures |items| == if i < ctx.pageSize then Min(ctx.pageSize - i, |rest|) else 0
    decreases |rest|
  {
    if i < ctx.pageSize && |rest| > 0 then
      [CandidateItem(i, i == ctx.highlighted, rest[0])] + Listed(rest[1..], ctx, i + 1)
    else []
  }

  /** Item j of the list is the j-th candidate the iterator still held, numbered as the
      (i + j)-th of the page and bracketed when that index is the highlighted one. */
  lemma {:induction false} ListedItem(rest: seq<CStr>, ctx: PageContext, i: nat, j: nat)
    requires j < |Listed(rest, ctx, i)|
    ensures j < |rest|
    ensures Listed(rest, ctx, i)[j] == CandidateItem(i + j, i + j == ctx.highlighted, rest[j])
    decreases |rest|
  {
    if j > 0 {
      ListedItem(rest[1..], ctx, i + 1, j - 1);
    }
  }

  function Concat(items: seq<string>): string
    decreases |items|
  {
    if |items| == 0 then "" else items[0] + Concat(items[1..])
  }

  predicate HasPreedit(p: Preedit)
  {
    p.text.Str? && |p.text.s| > 0
  }

  /** The text the formatting asks for when there is a preedit. */
  function Body(p: Preedit, ctx: PageContext, cands: seq<CStr>): string
    requires HasPreedit(p)
  {
    Prefix(ctx.pageNo) + p.text.s + Concat(Listed(cands, ctx, 0))
  }

  /** The whole text fits the 2048-byte buffer, so no snprintf truncates. */
  predicate Fits(p: Preedit, ctx: PageContext, cands: seq<CStr>)
  {
    HasPreedit(p) ==> |Body(p, ctx, cands)| < BufSize
  }

  /** im_panel_update of text_renderer.c. */
  function Render(p: Preedit, ctx: PageContext, cands: seq<CStr>): (r: Rendered)
    requires Fits(p, ctx, cands)
    ensures !HasPreedit(p) ==> r == Rendered("", 0, 0)
    ensures HasPreedit(p) ==>
      && Prefix(ctx.pageNo) + p.text.s <= r.text
      && r.text[|Prefix(ctx.pageNo)| + |p.text.s|..] == Concat(Listed(cands, ctx, 0))
      && r.begin - p.begin == |Prefix(ctx.pageNo)|
      && r.end - p.end == |Prefix(ctx.pageNo)|
    ensures |r.text| < BufSize
  {
    if !HasPreedit(p) then Rendered("", 0, 0)
    else
      var offset := |Prefix(ctx.pageNo)|;
      Rendered(Body(p, ctx, cands), offset + p.begin, offset + p.end)
  }

  /** The shifted selection keeps its order, stays inside the preedit portion, and selects
      the same characters of the output that it selected of the preedit. */
  lemma SelectionShift(p: Preedit, ctx: PageContext, cands: seq<CStr>)
    requires Fits(p, ctx, cands) && HasPreedit(p)
    requires 0 <= p.begin <= p.end <= |p.text.s|
    ensures var r := Render(p, ctx, cands);
      var n := |Prefix(ctx.pageNo)|;
      && n <= r.begin <= r.end <= n + |p.text.s|
      && r.text[r.begin..r.end] == p.text.s[p.begin..p.end]
  {
    var r := Render(p, ctx, cands);
    var pre := Prefix(ctx.pageNo);
    var n := |pre|;
    assert r.text[..n + |p.text.s|] == pre + p.text.s;
    assert r.text[r.begin..r.end] == (pre + p.text.s)[n + p.begin..n + p.end];
  }

  /** At most page_size candidates are listed, fewer when the iterator runs out; candidate
      i is numbered i + 1, and only the highlighted one is bracketed. */
  lemma ListedCandidates(ctx: PageContext, cands: seq<CStr>)
    ensures var items := Listed(cands, ctx, 0);
      && |items| == (if ctx.pageSize <= 0 then 0 else Min(ctx.pageSize, |cands|))
      && forall i :: 0 <= i < |items| ==> 3 <= |items[i]| && (items[i][1] == '[' <==> i == ctx.highlighted)
  {
    var items := Listed(cands, ctx, 0);
    forall i | 0 <= i < |items|
      ensures 3 <= |items[i]| && (items[i][1] == '[' <==> i == ctx.highlighted)
    {
      ListedItem(cands, ctx, 0, i);
      CandidateItemShape(i, i == ctx.highlighted, cands[i]);
    }
  }
}
