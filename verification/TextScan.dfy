/** Scanning free text for personal data: the matches of several patterns, in their order of priority. */
module TextScan {
  import opened Splicing

  /** A match is taken when it overlaps none taken before. */
  function Chosen(candidates: seq<Span>): seq<Span> {
    if candidates == [] then [] else
    var before := Chosen(candidates[..|candidates| - 1]);
    var last := candidates[|candidates| - 1];
    if forall i :: 0 <= i < |before| ==> Apart(last, before[i]) then before + [last] else before
  }

  function Flatten(patterns: seq<seq<Span>>): seq<Span> {
    if patterns == [] then [] else Flatten(patterns[..|patterns| - 1]) + patterns[|patterns| - 1]
  }

  /** Every match is a non-empty range of the text. */
  predicate InText(candidates: seq<Span>, length: nat) {
    forall i :: 0 <= i < |candidates| ==> candidates[i].start < candidates[i].stop <= length
  }

  lemma {:induction false} ChosenAreApart(candidates: seq<Span>, length: nat)
    requires InText(candidates, length)
    ensures AreApart(Chosen(candidates), length)
  {
    if candidates != [] {
      ChosenAreApart(candidates[..|candidates| - 1], length);
    }
  }

  predicate Covered(chosen: seq<Span>, m: Span) {
    m in chosen || exists i :: 0 <= i < |chosen| && !Apart(m, chosen[i])
  }

  lemma CoveredStays(chosen: seq<Span>, m: Span, last: Span)
    requires Covered(chosen, m)
    ensures Covered(chosen + [last], m)
  {
    if m !in chosen {
      var i :| 0 <= i < |chosen| && !Apart(m, chosen[i]);
      assert (chosen + [last])[i] == chosen[i];
    }
  }

  /** No match is missed: each is replaced, or overlaps one that is; and nothing else is replaced. */
  lemma {:induction false} EveryMatchIsCovered(candidates: seq<Span>, m: Span)
    ensures m in candidates ==> Covered(Chosen(candidates), m)
    ensures m in Chosen(candidates) ==> m in candidates
  {
    hide Covered;
    if candidates != [] {
      var init, last := candidates[..|candidates| - 1], candidates[|candidates| - 1];
      assert candidates == init + [last];
      EveryMatchIsCovered(init, m);
      if m in init {
        CoveredStays(Chosen(init), m, last);
      }
      if m == last {
        LastIsCovered(init, last);
      }
    }
  }

  lemma LastIsCovered(init: seq<Span>, last: Span)
    ensures Covered(Chosen(init + [last]), last)
  {
  }

  lemma ChosenNext(candidates: seq<Span>, last: Span)
    ensures Chosen(candidates + [last])
         == if forall i :: 0 <= i < |Chosen(candidates)| ==> Apart(last, Chosen(candidates)[i])
            then Chosen(candidates) + [last] else Chosen(candidates)
  {
  }

  /** One pass over each pattern's matches, then one splice from the last span to the first. */
  method ScanText(text: string, patterns: seq<seq<Span>>) returns (result: string)
    requires InText(Flatten(patterns), |text|)
    ensures result == Rebuild(text, SortSpans(Chosen(Flatten(patterns))), 0)
    ensures IsChain(SortSpans(Chosen(Flatten(patterns))), |text|)
    ensures Chosen(Flatten(patterns)) == [] ==> result == text
  {
    hide Chosen, Rebuild, IsChain, AreApart, SortSpans, InText;
    var spans := [];
    NothingChosen();
    for p := 0 to |patterns|
      invariant spans == Chosen(Flatten(patterns[..p]))
    {
      var matches := patterns[p];
      ghost var before := Flatten(patterns[..p]);
      assert before + matches[..0] == before;
      for i := 0 to |matches|
        invariant spans == Chosen(before + matches[..i])
      {
        var m := matches[i];
        ChosenNext(before + matches[..i], m);
        assert before + matches[..i] + [m] == before + matches[..i + 1];
        if forall k :: 0 <= k < |spans| ==> m.stop <= spans[k].start || m.start >= spans[k].stop {
          spans := spans + [m];
        }
      }
      assert matches[..|matches|] == matches;
      assert patterns[..p + 1][..p] == patterns[..p];
    }
    assert patterns[..|patterns|] == patterns;
    ChosenAreApart(Flatten(patterns), |text|);
    SortIsChain(spans, |text|);
    if spans == [] {
      NothingToSplice(text);
      return text;
    }
    result := SpliceAll(text, SortSpans(spans));
  }

  lemma NothingChosen()
    ensures Chosen([]) == []
  {
  }

  lemma NothingToSplice(text: string)
    ensures Rebuild(text, SortSpans([]), 0) == text
  {
  }

  lemma {:induction false} ChosenStays(candidates: seq<Span>, n: nat, m: Span)
    requires n <= |candidates| && m in Chosen(candidates[..n])
    ensures m in Chosen(candidates)
    decreases |candidates|
  {
    if n < |candidates| {
      var init := candidates[..|candidates| - 1];
      assert init[..n] == candidates[..n];
      ChosenStays(init, n, m);
    } else {
      assert candidates[..n] == candidates;
    }
  }

  lemma TakenWhenApart(candidates: seq<Span>, k: nat)
    requires k < |candidates|
    requires forall i :: 0 <= i < |Chosen(candidates[..k])| ==> Apart(candidates[k], Chosen(candidates[..k])[i])
    ensures candidates[k] in Chosen(candidates)
  {
    hide Apart, Chosen;
    ChosenNext(candidates[..k], candidates[k]);
    assert candidates[..k] + [candidates[k]] == candidates[..k + 1];
    assert (Chosen(candidates[..k]) + [candidates[k]])[|Chosen(candidates[..k])|] == candidates[k];
    ChosenStays(candidates, k + 1, candidates[k]);
  }

  lemma ChosenBefore(candidates: seq<Span>, k: nat, m: Span) returns (j: nat)
    requires k <= |candidates| && m in Chosen(candidates[..k])
    ensures j < k && candidates[j] == m && m in Chosen(candidates)
  {
    hide Chosen;
    EveryMatchIsCovered(candidates[..k], m);
    ChosenStays(candidates, k, m);
    j :| 0 <= j < k && candidates[..k][j] == m;
  }

  /** Earlier matches come first: a match is left out only for one before it that is replaced. */
  lemma EarlierMatchWins(candidates: seq<Span>, k: nat)
    requires k < |candidates| && candidates[k] !in Chosen(candidates)
    ensures exists j :: 0 <= j < k && candidates[j] in Chosen(candidates) && !Apart(candidates[k], candidates[j])
  {
    hide Apart, Chosen;
    var chosen := Chosen(candidates[..k]);
    if i :| 0 <= i < |chosen| && !Apart(candidates[k], chosen[i]) {
      var j := ChosenBefore(candidates, k, chosen[i]);
    } else {
      TakenWhenApart(candidates, k);
    }
  }
}
