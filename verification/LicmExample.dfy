/** A loop in which a division may trap, so it stays behind, while an addition that needs it is moved out in front of it. */
module LicmExample {
  import opened Ir
  import opened Semantics
  import opened Ssa
  import opened Licm
  import opened LicmPass
  import opened LicmSsa
  import opened LicmExact
  import opened SimpleLicm
  import opened Riv

  function Quotient(): Instr {
    Instr(1, UDiv, Int(32), [Arg(0), Arg(1)])
  }

  function Plus(): Instr {
    Instr(2, Add, Int(32), [Local(1), Lit(1)])
  }

  /** Block 1 loops as long as the third parameter is not zero. */
  function Dividing(): Fn {
    Fn([Int(32), Int(32), Int(1)], [], 0,
       map[0 := Block([], [], Br(1)),
           1 := Block([], [Quotient(), Plus()], CondBr(Arg(2), 1, 2)),
           2 := Block([], [], Ret(Lit(0)))],
       3, 3)
  }

  function OneBlock(): Loop {
    Loop(1, [1], Some(0))
  }

  lemma DividingEdges(a: Label, b: Label)
    ensures IsEdge(Dividing(), a, b) <==> (a == 0 && b == 1) || (a == 1 && (b == 1 || b == 2))
  {
  }

  lemma DividingUsesOk(l: Label)
    requires l in Dividing().blocks
    ensures BodyUsesOk(Dividing(), l) && TermUsesOk(Dividing(), l) && PhiUsesOk(Dividing(), l)
  {
    var b := Dividing().blocks[l];
    if l == 1 {
      assert b.body[0] == Quotient() && b.body[1] == Plus();
      assert 1 in DefsUpTo(b, 1);
    }
  }

  lemma DividingWellFormed()
    ensures WellFormed(Dividing())
  {
    var f := Dividing();
    forall a, b | IsEdge(f, a, b)
      ensures b in f.blocks && b != f.entry
    {
      DividingEdges(a, b);
    }
    forall s | HasSite(f, s)
      ensures s == InstrSite(1, 0) || s == InstrSite(1, 1)
    {
    }
    assert SiteId(f, InstrSite(1, 0)) == 1 && SiteId(f, InstrSite(1, 1)) == 2;
    hide BodyUsesOk, TermUsesOk, PhiUsesOk;
    forall l | l in f.blocks
      ensures BodyUsesOk(f, l) && TermUsesOk(f, l) && PhiUsesOk(f, l)
    {
      DividingUsesOk(l);
    }
  }

  lemma DividingLoop()
    ensures IsLoop(Dividing(), OneBlock()) && Reachable(Dividing(), 0)
  {
    var f := Dividing();
    forall p, x | IsEdge(f, p, x) && x in OneBlock().blocks && p !in OneBlock().blocks
      ensures x == 1 && p == 0
    {
      DividingEdges(p, x);
    }
    assert Path(f, [0]) && Last([0]) == 0;
  }

  lemma FromDividing(i: Instr)
    ensures FromLoop(Dividing(), OneBlock(), i) <==> i == Quotient() || i == Plus()
  {
    var body := Dividing().blocks[1].body;
    assert body[0] == Quotient() && body[1] == Plus();
  }

  /** Both instructions are invariant under the operand rule. */
  lemma LeastIs()
    ensures Least(Dividing(), OneBlock(), {1, 2})
  {
    var f, loop := Dividing(), OneBlock();
    forall t: set<Id> | ClosedUnderRule(f, loop, t)
      ensures {1, 2} <= t
    {
      var body := f.blocks[1].body;
      assert 1 in loop.blocks;
      assert body[0] == Quotient() && Eligible(body[0]) && OperandsInvariant(f, loop, t, body[0]);
      assert body[0].id in t;
      assert InLoop(f, loop, 1);
      assert body[1] == Plus() && Eligible(body[1]) && OperandsInvariant(f, loop, t, body[1]);
    }
  }

  lemma TrapFeeds()
    ensures !NoTrapFeeds(Dividing(), OneBlock())
  {
    LeastIs();
    FromDividing(Quotient());
    FromDividing(Plus());
    assert Plus().args[0] == Local(1);
    assert Local(Quotient().id) in Plus().args && Speculatable(Plus()) && !Speculatable(Quotient());
    assert !TrapsFeedNone(Dividing(), OneBlock(), {1, 2});
  }

  /** Whatever list of the invariant set the pass iterates, what it makes of this loop has a use no definition dominates. */
  lemma TrapBreaksDominance(inv: seq<Instr>, order: seq<Instr>)
    requires Ordered(Dividing(), OneBlock(), inv) && Least(Dividing(), OneBlock(), Ids(inv)) && multiset(order) == multiset(inv)
    ensures WellFormed(Dividing()) && IsLoop(Dividing(), OneBlock())
    ensures !UsesDominated(HoistFn(Dividing(), OneBlock(), 0, SpecOnly(order)))
  {
    DividingWellFormed();
    DividingLoop();
    TrapFeeds();
    TrapStaysBehind(Dividing(), OneBlock(), 0, inv, order);
  }

  lemma OnlyPlusMoves()
    ensures SpecOnly([Quotient(), Plus()]) == [Plus()]
    ensures Ordered(Dividing(), OneBlock(), [Quotient(), Plus()]) && Least(Dividing(), OneBlock(), Ids([Quotient(), Plus()]))
  {
    hide Dividing, OneBlock, Least, ClosedUnderRule;
    var inv := [Quotient(), Plus()];
    assert inv[..1] == [Quotient()] && inv[..1][..0] == [];
    assert SpecOnly([]) == [] && SpecOnly(inv[..1]) == [];
    FromDividing(Quotient());
    FromDividing(Plus());
    assert inv[..1][0].id == 1;
    assert inv[0].id == 1 && inv[1].id == 2;
    assert Ids(inv) == {1, 2};
    LeastIs();
  }

  lemma OperandLast()
    ensures !OperandsFirst([Plus()]) && OneBlock().preheader == Some(0)
  {
    assert [Plus()][0].args[0] == Local(1) && [Plus()][..0] == [];
  }

  /** Every run starts in the preheader and leaves it. */
  lemma LeavesAtOnce(inp: Input)
    ensures EverLeaves(Dividing(), 0, inp)
  {
    assert Run(Dividing(), inp, 0) == Init(Dividing(), inp);
    assert LeavesPreheader(Dividing(), 0, inp, 0);
  }

  /** In insertion order the pass moves the addition in front of the loop and leaves the division inside, and every run gets stuck. */
  lemma TrapBreaks()
    ensures WellFormed(Dividing()) && IsLoop(Dividing(), OneBlock())
    ensures Ordered(Dividing(), OneBlock(), [Quotient(), Plus()]) && Least(Dividing(), OneBlock(), Ids([Quotient(), Plus()]))
    ensures SpecOnly([Quotient(), Plus()]) == [Plus()]
    ensures !UsesDominated(HoistFn(Dividing(), OneBlock(), 0, [Plus()]))
    ensures forall inp: Input :: !SameOn(Dividing(), HoistFn(Dividing(), OneBlock(), 0, [Plus()]), inp)
  {
    hide *;
    var inv := [Quotient(), Plus()];
    OnlyPlusMoves();
    DividingLoop();
    TrapBreaksDominance(inv, inv);
    OperandLast();
    forall inp: Input
      ensures !SameOn(Dividing(), HoistFn(Dividing(), OneBlock(), 0, [Plus()]), inp)
    {
      LeavesAtOnce(inp);
      MovedRunIff(Dividing(), OneBlock(), 0, inv, inv, inp);
    }
  }
}
