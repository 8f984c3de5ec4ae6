/** Replacing spans of a text: from the last to the first, which leaves the earlier offsets valid. */
module Splicing {

  /** Put `text` where `[start, stop)` stands. */
  datatype Span = Span(start: nat, stop: nat, text: string)

  /** In range, ascending, and not overlapping. */
  predicate IsChain(spans: seq<Span>, length: nat) {
    && (forall i :: 0 <= i < |spans| ==> spans[i].start <= spans[i].stop <= length)
    && (forall i, j :: 0 <= i < j < |spans| ==> spans[i].stop <= spans[j].start)
  }

  /** One replacement. */
  function Splice(text: string, span: Span): string
    requires span.start <= span.stop <= |text|
  {
    text[..span.start] + span.text + text[span.stop..]
  }

  /** The meaning: the gaps as they are, each span replaced, read from left to right. */
  function Rebuild(text: string, spans: seq<Span>, from: nat): string
    requires from <= |text|
  {
    if spans == [] || !(from <= spans[0].start <= spans[0].stop <= |text|) then text[from..]
    else text[from..spans[0].start] + spans[0].text + Rebuild(text, spans[1..], spans[0].stop)
  }

  lemma ChainTail(spans: seq<Span>, length: nat)
    requires spans != [] && IsChain(spans, length)
    ensures IsChain(spans[1..], length)
    ensures forall i :: 0 <= i < |spans[1..]| ==> spans[0].stop <= spans[1..][i].start
  {
  }

  lemma RebuildStep(text: string, spans: seq<Span>, from: nat)
    requires spans != [] && from <= spans[0].start <= spans[0].stop <= |text|
    ensures Rebuild(text, spans, from)
         == text[from..spans[0].start] + spans[0].text + Rebuild(text, spans[1..], spans[0].stop)
  {
  }

  lemma SpliceAlone(text: string, span: Span, from: nat)
    requires from <= span.start <= span.stop <= |text|
    ensures from <= |Splice(text, span)|
    ensures Rebuild(text, [span], from) == Rebuild(Splice(text, span), [], from)
  {
  }

  lemma SpliceLater(text: string, span: Span, from: nat, to: nat)
    requires from <= to <= span.start <= span.stop <= |text|
    ensures to <= |Splice(text, span)| && Splice(text, span)[from..to] == text[from..to]
  {
  }

  /** Splicing the last span first leaves the rest to be rebuilt as before. */
  lemma {:induction false} LastFirst(text: string, spans: seq<Span>, from: nat)
    requires spans != [] && IsChain(spans, |text|) && from <= spans[0].start
    ensures var last := spans[|spans| - 1];
            && last.start <= last.stop <= |text|
            && from <= |Splice(text, last)|
            && Rebuild(text, spans, from) == Rebuild(Splice(text, last), spans[..|spans| - 1], from)
  {
    hide IsChain, Rebuild, Splice;
    var n := |spans| - 1;
    var last := spans[n];
    ChainRange(spans, |text|);
    if n == 0 {
      assert spans == [last] && spans[..0] == [];
      SpliceAlone(text, last, from);
    } else {
      ChainTail(spans, |text|);
      LastFirst(text, spans[1..], spans[0].stop);
      assert spans[1..][..n - 1] == spans[..n][1..];
      SpliceLater(text, last, from, spans[0].start);
      SpliceLater(text, last, spans[0].stop, spans[0].stop);
      RebuildStep(text, spans, from);
      RebuildStep(Splice(text, last), spans[..n], from);
    }
  }

  lemma ChainRange(spans: seq<Span>, length: nat)
    requires spans != [] && IsChain(spans, length)
    ensures spans[0].start <= spans[0].stop <= length
    ensures var last := spans[|spans| - 1]; last.start <= last.stop <= length && spans[0].start <= last.start
    ensures |spans| > 1 ==> spans[0].stop <= spans[1].start && spans[0].stop <= spans[|spans| - 1].start
  {
  }

  /** The loop over the spans, last to first. */
  method SpliceAll(text: string, spans: seq<Span>) returns (result: string)
    requires IsChain(spans, |text|)
    ensures result == Rebuild(text, spans, 0)
  {
    hide IsChain, Rebuild;
    result := text;
    var n := |spans|;
    ChainIsAll(spans, text);
    while n > 0
      invariant 0 <= n <= |spans|
      invariant IsChain(spans[..n], |result|)
      invariant Rebuild(text, spans, 0) == Rebuild(result, spans[..n], 0)
    {
      ghost var rest := spans[..n];
      ChainRange(rest, |result|);
      LastFirst(result, rest, 0);
      SplicedChain(result, rest);
      assert rest[..n - 1] == spans[..n - 1];
      n := n - 1;
      result := result[..spans[n].start] + spans[n].text + result[spans[n].stop..];
    }
    NothingToRebuild(result);
  }

  lemma ChainIsAll(spans: seq<Span>, text: string)
    ensures spans[..|spans|] == spans
  {
  }

  lemma NothingToRebuild(text: string)
    ensures Rebuild(text, [], 0) == text
  {
  }

  lemma SplicedChain(text: string, spans: seq<Span>)
    requires spans != [] && IsChain(spans, |text|)
    ensures var last := spans[|spans| - 1];
            IsChain(spans[..|spans| - 1], |Splice(text, last)|)
  {
  }

  // ----- What comes out ------------------------------------------------------------------

  /** Where the replacements stand in the result, each with the text it replaced. */
  function Undo(text: string, spans: seq<Span>, from: nat, at: nat): seq<Span>
    requires from <= |text|
  {
    if spans == [] || !(from <= spans[0].start <= spans[0].stop <= |text|) then [] else
    var start := at + spans[0].start - from;
    var stop := start + |spans[0].text|;
    [Span(start, stop, text[spans[0].start..spans[0].stop])] + Undo(text, spans[1..], spans[0].stop, stop)
  }

  lemma {:induction false} UndoRebuilds(text: string, spans: seq<Span>, from: nat, prefix: string)
    requires IsChain(spans, |text|) && from <= |text| && (spans != [] ==> from <= spans[0].start)
    ensures Rebuild(prefix + Rebuild(text, spans, from), Undo(text, spans, from, |prefix|), |prefix|) == text[from..]
    decreases |spans|
  {
    hide IsChain, Rebuild, Undo;
    if spans == [] {
      UndoNothing(text, from, prefix);
    } else {
      ChainRange(spans, |text|);
      ChainTail(spans, |text|);
      UndoStep(text, spans, from, prefix);
      var first := spans[0];
      var next := prefix + text[from..first.start] + first.text;
      UndoRebuilds(text, spans[1..], first.stop, next);
      assert text[from..first.start] + text[first.start..first.stop] + text[first.stop..] == text[from..];
    }
  }

  lemma UndoUnfold(text: string, spans: seq<Span>, from: nat, at: nat)
    requires spans != [] && from <= spans[0].start <= spans[0].stop <= |text|
    ensures var first := spans[0];
            var start := at + (first.start - from);
            var stop := start + |first.text|;
            Undo(text, spans, from, at)
              == [Span(start, stop, text[first.start..first.stop])] + Undo(text, spans[1..], first.stop, stop)
  {
  }

  lemma Middle(prefix: string, gap: string, inner: string, rest: string)
    ensures var whole := prefix + gap + inner + rest;
            && prefix + (gap + inner + rest) == whole
            && whole[|prefix|..|prefix| + |gap|] == gap
  {
  }

  lemma UndoStep(text: string, spans: seq<Span>, from: nat, prefix: string)
    requires spans != [] && from <= spans[0].start <= spans[0].stop <= |text|
    ensures var first := spans[0];
            var next := prefix + text[from..first.start] + first.text;
            var whole := next + Rebuild(text, spans[1..], first.stop);
            && prefix + Rebuild(text, spans, from) == whole
            && Rebuild(whole, Undo(text, spans, from, |prefix|), |prefix|)
               == text[from..first.start] + text[first.start..first.stop]
                  + Rebuild(whole, Undo(text, spans[1..], first.stop, |next|), |next|)
  {
    hide Rebuild, Undo;
    var first := spans[0];
    var gap, rest := text[from..first.start], Rebuild(text, spans[1..], first.stop);
    var next := prefix + gap + first.text;
    var whole := next + rest;
    RebuildStep(text, spans, from);
    Middle(prefix, gap, first.text, rest);
    UndoUnfold(text, spans, from, |prefix|);
    var undo := Undo(text, spans, from, |prefix|);
    assert |prefix| + (first.start - from) + |first.text| == |next|;
    assert undo[1..] == Undo(text, spans[1..], first.stop, |next|);
    RebuildStep(whole, undo, |prefix|);
  }

  lemma UndoNothing(text: string, from: nat, prefix: string)
    requires from <= |text|
    ensures Rebuild(prefix + Rebuild(text, [], from), Undo(text, [], from, |prefix|), |prefix|) == text[from..]
  {
  }

  /** Nothing outside the spans is lost or moved: putting the old texts back gives the old text. */
  lemma SpliceRoundTrip(text: string, spans: seq<Span>)
    requires IsChain(spans, |text|)
    ensures Rebuild(Rebuild(text, spans, 0), Undo(text, spans, 0, 0), 0) == text
  {
    hide IsChain, Undo, Rebuild;
    UndoRebuilds(text, spans, 0, "");
    assert "" + Rebuild(text, spans, 0) == Rebuild(text, spans, 0);
  }

  // ----- Ordering ------------------------------------------------------------------------

  predicate Apart(a: Span, b: Span) {
    a.stop <= b.start || a.start >= b.stop
  }

  function InsertSpan(s: Span, sorted: seq<Span>): seq<Span> {
    if sorted == [] || s.start < sorted[0].start then [s] + sorted else [sorted[0]] + InsertSpan(s, sorted[1..])
  }

  /** By start; spans with equal starts keep their order. */
  function SortSpans(spans: seq<Span>): seq<Span> {
    if spans == [] then [] else InsertSpan(spans[|spans| - 1], SortSpans(spans[..|spans| - 1]))
  }

  /** In range, not empty, and no two overlapping. */
  predicate AreApart(spans: seq<Span>, length: nat) {
    && (forall i :: 0 <= i < |spans| ==> spans[i].start < spans[i].stop <= length)
    && (forall i, j :: 0 <= i < j < |spans| ==> Apart(spans[i], spans[j]))
  }

  lemma {:induction false} InsertKeepsSpans(s: Span, sorted: seq<Span>)
    ensures multiset(InsertSpan(s, sorted)) == multiset(sorted) + multiset{s}
  {
    if sorted != [] {
      InsertKeepsSpans(s, sorted[1..]);
      assert sorted == [sorted[0]] + sorted[1..];
    }
  }

  lemma ChainCons(s: Span, rest: seq<Span>, length: nat)
    requires IsChain(rest, length) && s.start <= s.stop <= length
    requires forall x :: x in rest ==> s.stop <= x.start
    ensures IsChain([s] + rest, length)
  {
  }

  lemma ChainHead(spans: seq<Span>, length: nat)
    requires spans != [] && IsChain(spans, length)
    ensures forall x :: x in spans[1..] ==> spans[0].stop <= x.start
    ensures forall x :: x in spans ==> x.start <= x.stop <= length && spans[0].start <= x.start
  {
  }

  lemma {:induction false} InsertIsChain(s: Span, sorted: seq<Span>, length: nat)
    requires IsChain(sorted, length) && s.start < s.stop <= length
    requires forall x :: x in sorted ==> x.start < x.stop && Apart(x, s)
    ensures IsChain(InsertSpan(s, sorted), length)
  {
    hide IsChain;
    if sorted == [] {
      ChainCons(s, [], length);
    } else {
      ChainHead(sorted, length);
      ChainTail(sorted, length);
      assert sorted[0] in sorted;
      if s.start < sorted[0].start {
        ChainCons(s, sorted, length);
      } else {
        var rest := InsertSpan(s, sorted[1..]);
        InsertIsChain(s, sorted[1..], length);
        InsertKeepsSpans(s, sorted[1..]);
        forall x | x in rest ensures sorted[0].stop <= x.start {
          assert x in multiset(rest);
          assert x == s || x in sorted[1..];
        }
        ChainCons(sorted[0], rest, length);
      }
    }
  }

  /** Spans that are apart can be put in a chain, and the sort does so. */
  lemma {:induction false} SortIsChain(spans: seq<Span>, length: nat)
    requires AreApart(spans, length)
    ensures IsChain(SortSpans(spans), length)
    ensures multiset(SortSpans(spans)) == multiset(spans)
  {
    hide IsChain, InsertSpan;
    if spans == [] {
      NoSpans(length);
    } else {
      var init, last := spans[..|spans| - 1], spans[|spans| - 1];
      SortIsChain(init, length);
      assert spans == init + [last];
      var sorted := SortSpans(init);
      forall x | x in sorted ensures x.start < x.stop && Apart(x, last) {
        assert x in multiset(init);
        var k :| 0 <= k < |init| && init[k] == x;
        assert spans[k] == init[k];
      }
      InsertIsChain(last, sorted, length);
      InsertKeepsSpans(last, sorted);
    }
  }

  lemma NoSpans(length: nat)
    ensures IsChain([], length)
  {
  }
}
