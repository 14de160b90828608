/** The title table of the tab strip: how setTabTitle grows the parallel
    tables and writes one title, and what a series of such calls leaves. */
module TabTitles {
  import opened Basics

  /** `s` lengthened to `n` entries by appending `fill`, as growing a
      std::vector with resize does; a table already that long is kept. */
  function Grow<T>(s: seq<T>, n: nat, fill: T): (r: seq<T>)
    ensures |r| == Max(|s|, n)
    ensures r[..|s|] == s
    ensures forall j :: |s| <= j < |r| ==> r[j] == fill
  {
    if n <= |s| then s else s + seq(n - |s|, _ => fill)
  }

  /** The title table after setting the title of tab `index`. */
  function SetTitle(titles: seq<string>, index: nat, title: string): (r: seq<string>)
    ensures |r| == Max(|titles|, index + 1)
    ensures r[index] == title
    ensures forall j :: 0 <= j < |r| && j != index ==>
              r[j] == (if j < |titles| then titles[j] else "")
  {
    Grow(titles, index + 1, "")[index := title]
  }

  /** One call setTabTitle(index, title). */
  datatype TitleCall = TitleCall(index: nat, title: string)

  /** The title table after the calls in order. */
  function ApplyTitles(titles: seq<string>, calls: seq<TitleCall>): seq<string>
  {
    if calls == [] then titles
    else
      var last := calls[|calls| - 1];
      SetTitle(ApplyTitles(titles, calls[..|calls| - 1]), last.index, last.title)
  }

  /** One past the largest index named by the calls (0 for no calls). */
  function IndexBound(calls: seq<TitleCall>): nat
  {
    if calls == [] then 0
    else Max(IndexBound(calls[..|calls| - 1]), calls[|calls| - 1].index + 1)
  }

  /** The title the last call naming slot `j` wrote, if any call named it. */
  function LastTitleFor(calls: seq<TitleCall>, j: nat): Option<string>
  {
    if calls == [] then None
    else if calls[|calls| - 1].index == j then Some(calls[|calls| - 1].title)
    else LastTitleFor(calls[..|calls| - 1], j)
  }

  /** A series of setTabTitle calls leaves a table as long as the longer of
      the old table and the largest index named plus one; every slot holds the
      title of the last call that named it, and a slot no call named keeps
      its old title, or is empty if it was created by growing. */
  lemma {:induction false} ApplyTitlesContents(titles: seq<string>, calls: seq<TitleCall>)
    ensures |ApplyTitles(titles, calls)| == Max(|titles|, IndexBound(calls))
    ensures forall j :: 0 <= j < |ApplyTitles(titles, calls)| ==>
              ApplyTitles(titles, calls)[j] ==
                match LastTitleFor(calls, j)
                case Some(t) => t
                case None => if j < |titles| then titles[j] else ""
  {
    if calls != [] {
      var init := calls[..|calls| - 1];
      var last := calls[|calls| - 1];
      ApplyTitlesContents(titles, init);
      var before := ApplyTitles(titles, init);
      var after := ApplyTitles(titles, calls);
      assert after == SetTitle(before, last.index, last.title);
      forall j | 0 <= j < |after|
        ensures after[j] ==
                  match LastTitleFor(calls, j)
                  case Some(t) => t
                  case None => if j < |titles| then titles[j] else ""
      {
        if j != last.index {
          assert LastTitleFor(calls, j) == LastTitleFor(init, j);
          if j >= |before| {
            assert LastTitleFor(init, j).None? by {
              NoCallBeyondBound(init, j);
            }
          }
        }
      }
    }
  }

  /** No call names a slot at or beyond the index bound. */
  lemma {:induction false} NoCallBeyondBound(calls: seq<TitleCall>, j: nat)
    requires j >= IndexBound(calls)
    ensures LastTitleFor(calls, j).None?
  {
    if calls != [] {
      NoCallBeyondBound(calls[..|calls| - 1], j);
    }
  }

  /** Starting from an empty table, the table ends exactly one past the
      largest index named, and the slots no call named hold empty titles. */
  lemma ApplyTitlesFromEmpty(calls: seq<TitleCall>)
    ensures |ApplyTitles([], calls)| == IndexBound(calls)
    ensures forall j :: 0 <= j < |ApplyTitles([], calls)| && LastTitleFor(calls, j).None? ==>
              ApplyTitles([], calls)[j] == ""
  {
    ApplyTitlesContents([], calls);
  }
}
