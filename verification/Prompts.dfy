/** When the lines of prompt marks stay distinct, and when they stay in order: a mark is compared
    with the last one only. */
module PromptLaws {
  import opened Cells
  import opened ScreenModel

  predicate Distinct(ps: seq<Prompt>) { forall i, j :: 0 <= i < j < |ps| ==> ps[i].line != ps[j].line }

  predicate Increasing(ps: seq<Prompt>) { forall i, j :: 0 <= i < j < |ps| ==> ps[i].line < ps[j].line }

  /** The global number of the oldest line kept, below which a mark is dropped. */
  function Oldest(s: Scr): nat
    requires Ok(s)
  {
    |s.hist.log| - Kept(s)
  }

  function CursorLine(s: Scr): nat { |s.hist.log| + s.cur.y }

  /** The mark made last is on the cursor's line. */
  predicate Repeats(s: Scr) { s.prompts != [] && s.prompts[|s.prompts| - 1].line == CursorLine(s) }

  /** The earlier marks that stay beside a new one: those on lines still kept, without the first
      when there are too many. */
  function Beside(s: Scr): seq<Prompt>
    requires Ok(s)
  {
    var live := PromptsFrom(s.prompts, Oldest(s));
    if |live| < 2000 then live else live[|live| - 1999..]
  }

  // ---- what is kept of a list of marks ------------------------------------------------------------

  lemma {:induction false} FromAppend(ps: seq<Prompt>, p: Prompt, oldest: nat)
    requires p.line >= oldest
    ensures PromptsFrom(ps + [p], oldest) == PromptsFrom(ps, oldest) + [p]
  {
    if ps == [] {
      assert [p][1..] == [] && [] + [p] == [p];
    } else {
      assert (ps + [p])[0] == ps[0] && (ps + [p])[1..] == ps[1..] + [p];
      FromAppend(ps[1..], p, oldest);
      var rest := PromptsFrom(ps[1..], oldest);
      assert [ps[0]] + (rest + [p]) == [ps[0]] + rest + [p] && [] + (rest + [p]) == [] + rest + [p];
    }
  }

  lemma {:induction false} FromThese(ps: seq<Prompt>, oldest: nat)
    ensures forall p :: p in PromptsFrom(ps, oldest) ==> p in ps
  {
    if ps != [] { FromThese(ps[1..], oldest); }
  }

  lemma Ahead(p: Prompt, ps: seq<Prompt>)
    ensures Distinct(ps) && (forall q :: q in ps ==> p.line != q.line) ==> Distinct([p] + ps)
    ensures Increasing(ps) && (forall q :: q in ps ==> p.line < q.line) ==> Increasing([p] + ps)
  {
  }

  lemma FirstAhead(ps: seq<Prompt>)
    requires ps != []
    ensures Distinct(ps) ==> Distinct(ps[1..]) && forall q :: q in ps[1..] ==> ps[0].line != q.line
    ensures Increasing(ps) ==> Increasing(ps[1..]) && forall q :: q in ps[1..] ==> ps[0].line < q.line
  {
  }

  /** The marks kept are some of the list, in its order. */
  lemma {:induction false} FromKeepsOrder(ps: seq<Prompt>, oldest: nat)
    ensures Distinct(ps) ==> Distinct(PromptsFrom(ps, oldest))
    ensures Increasing(ps) ==> Increasing(PromptsFrom(ps, oldest))
  {
    if ps != [] {
      FromKeepsOrder(ps[1..], oldest);
      FromThese(ps[1..], oldest);
      FirstAhead(ps);
      var rest := PromptsFrom(ps[1..], oldest);
      Ahead(ps[0], rest);
      assert PromptsFrom(ps, oldest) == if ps[0].line >= oldest then [ps[0]] + rest else rest;
      hide Distinct, Increasing;
    }
  }

  /** The marks after MarkPrompt on the primary screen. */
  lemma NewMarks(s: Scr)
    requires Ok(s) && !s.bufs.inAlt
    ensures MarkPrompt(s).prompts ==
      if Repeats(s) then Capped(PromptsFrom(s.prompts, Oldest(s)))
      else Beside(s) + [Prompt(CursorLine(s), None)]
  {
    if !Repeats(s) { FromAppend(s.prompts, Prompt(CursorLine(s), None), Oldest(s)); }
    hide PromptsFrom, GridOk;
  }

  lemma BesideKeepsOrder(s: Scr)
    requires Ok(s)
    ensures Distinct(s.prompts) ==> Distinct(Beside(s))
    ensures Increasing(s.prompts) ==> Increasing(Beside(s))
  {
    FromKeepsOrder(s.prompts, Oldest(s));
    hide PromptsFrom, GridOk;
  }

  /** In a list in order, the last mark stays or none does. */
  lemma BesideLast(s: Scr)
    requires Ok(s) && s.prompts != [] && Increasing(s.prompts)
    ensures var (ps, last) := (Beside(s), s.prompts[|s.prompts| - 1]);
            if last.line >= Oldest(s) then ps != [] && ps[|ps| - 1] == last else ps == []
  {
    LastKept(s.prompts, Oldest(s));
    hide PromptsFrom, GridOk, Increasing;
  }

  // ---- the laws -----------------------------------------------------------------------------------

  /** Marks on distinct lines stay so exactly when the cursor's line carries no earlier mark that
      stays, other than the last one made. */
  lemma MarksStayDistinct(s: Scr)
    requires Ok(s) && Distinct(s.prompts)
    ensures Distinct(MarkPrompt(s).prompts) <==>
      s.bufs.inAlt || Repeats(s) || forall i :: 0 <= i < |Beside(s)| ==> Beside(s)[i].line != CursorLine(s)
  {
    hide PromptsFrom, MarkPrompt, Ok, Beside, Distinct, Capped;
    if !s.bufs.inAlt {
      FromKeepsOrder(s.prompts, Oldest(s));
      CappedKeepsOrder(PromptsFrom(s.prompts, Oldest(s)));
      BesideKeepsOrder(s);
      NewMarks(s);
      if !Repeats(s) { DistinctPlus(Beside(s), Prompt(CursorLine(s), None)); }
    } else {
      Unmarked(s);
    }
  }

  lemma DistinctPlus(ps: seq<Prompt>, p: Prompt)
    requires Distinct(ps)
    ensures Distinct(ps + [p]) <==> forall i :: 0 <= i < |ps| ==> ps[i].line != p.line
  {
    if Distinct(ps + [p]) {
      forall i | 0 <= i < |ps| ensures ps[i].line != p.line {
        assert (ps + [p])[i].line != (ps + [p])[|ps|].line;
      }
    }
  }

  /** Marks in the order of their lines stay so exactly when the cursor is not above the last one:
      then no line is ever marked twice. */
  lemma MarksStayInOrder(s: Scr)
    requires Ok(s) && Increasing(s.prompts)
    ensures Increasing(MarkPrompt(s).prompts) <==>
      s.bufs.inAlt || s.prompts == [] || s.prompts[|s.prompts| - 1].line <= CursorLine(s)
  {
    hide PromptsFrom, MarkPrompt, Ok, Beside, Increasing, Capped;
    if !s.bufs.inAlt {
      FromKeepsOrder(s.prompts, Oldest(s));
      CappedKeepsOrder(PromptsFrom(s.prompts, Oldest(s)));
      BesideKeepsOrder(s);
      NewMarks(s);
      if s.prompts != [] { BesideLast(s); } else { NoneBeside(s); }
      if !Repeats(s) { OrderedPlus(Beside(s), Prompt(CursorLine(s), None)); }
    } else {
      Unmarked(s);
    }
  }

  lemma Unmarked(s: Scr)
    requires Ok(s) && s.bufs.inAlt
    ensures MarkPrompt(s) == s
  {
  }

  lemma CappedKeepsOrder(ps: seq<Prompt>)
    ensures Distinct(ps) ==> Distinct(Capped(ps))
    ensures Increasing(ps) ==> Increasing(Capped(ps))
  {
  }

  lemma NoneBeside(s: Scr)
    requires Ok(s) && s.prompts == []
    ensures Beside(s) == []
  {
  }

  lemma OrderedPlus(ps: seq<Prompt>, p: Prompt)
    requires Increasing(ps)
    ensures Increasing(ps + [p]) <==> ps == [] || ps[|ps| - 1].line < p.line
  {
    if Increasing(ps + [p]) && ps != [] {
      assert (ps + [p])[|ps| - 1].line < (ps + [p])[|ps|].line;
    }
  }

  /** The last mark is kept if its line is; if it is not, no mark of a list in order is. */
  lemma {:induction false} LastKept(ps: seq<Prompt>, oldest: nat)
    requires ps != [] && Increasing(ps)
    ensures var (live, last) := (PromptsFrom(ps, oldest), ps[|ps| - 1]);
            if last.line >= oldest then live != [] && live[|live| - 1] == last else live == []
  {
    if |ps| > 1 {
      LastKept(ps[1..], oldest);
    } else {
      assert ps[1..] == [];
    }
  }

  /** Marks on rows 3, 1 and 3 again are three marks, two of them of one line. */
  lemma MarkedTwice()
    ensures var f := Fresh(80, 24, 1);
            var s := MarkPrompt(MoveTo(MarkPrompt(MoveTo(MarkPrompt(MoveTo(f, 0, 3)), 0, 1)), 0, 3));
            s.prompts == [Prompt(3, None), Prompt(1, None), Prompt(3, None)] && !Distinct(s.prompts)
  {
    var s := MoveTo(Fresh(80, 24, 1), 0, 3);
    OneMore(s);
    var s1 := MoveTo(MarkPrompt(s), 0, 1);
    OneMore(s1);
    OneMore(MoveTo(MarkPrompt(s1), 0, 3));
    hide MarkPrompt, Ok;
  }

  /** With no history and few marks, a mark off the last one's line joins the list. */
  lemma OneMore(s: Scr)
    requires Ok(s) && !s.bufs.inAlt && s.hist.log == [] && |s.prompts| < 3 && !Repeats(s)
    ensures MarkPrompt(s) == s.(prompts := s.prompts + [Prompt(s.cur.y, None)])
  {
    AllKept(s.prompts + [Prompt(s.cur.y, None)]);
    hide GridOk, PromptsFrom;
  }

  lemma {:induction false} AllKept(ps: seq<Prompt>)
    ensures PromptsFrom(ps, 0) == ps
  {
    if ps != [] { AllKept(ps[1..]); }
  }
}
