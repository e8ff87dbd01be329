/** Cases from the rule's test suite worked through the model. */
module CurlyExamples {
  import opened Layout
  import opened Curly

  // if (true)
  //   console.log('foo')
  // else if (false)
  //   console.log('bar')
  // else if (true)
  //   console.log('baz')
  // else {
  //   console.log('qux')
  // }
  const Foo := Other(Loc(12, 30, 2, 2, 9))
  const Bar := Other(Loc(49, 67, 4, 4, 46))
  const Baz := Other(Loc(85, 103, 6, 6, 82))
  const Qux := Stmt.Block(Loc(109, 133, 7, 9, 108))
  const Third := If(Baz, Some(Qux), Loc(73, 133, 5, 9, 72))
  const Second := If(Bar, Some(Third), Loc(36, 133, 3, 9, 35))
  const First := If(Foo, Some(Second), Loc(0, 133, 1, 9, 0))

  lemma ChainGroup()
    ensures BranchGroup(First) == [Foo, Bar, Baz, Qux]
  {
    assert BranchGroup(Third) == [Baz, Qux];
    assert BranchGroup(Second) == [Bar, Baz, Qux];
  }

  /** The braced final `else` makes the whole chain braced: the three other bodies are wrapped. */
  lemma IfElseIfExample()
    ensures CheckSpec(BranchGroup(First)) == [Report(Foo.loc, WrapFix(Foo.loc)),
                                              Report(Bar.loc, WrapFix(Bar.loc)),
                                              Report(Baz.loc, WrapFix(Baz.loc))]
  {
    ChainGroup();
    var group := [Foo, Bar, Baz, Qux];
    assert SomeRequire(group) by { assert RequireCurly(group[3]); }
    assert group[..3][..2][..1][..0] == [];
    assert group[..3][..2][..1] == [Foo];
    assert group[..3][..2] == [Foo, Bar];
    assert group[..3] == [Foo, Bar, Baz];
    assert Wraps([Foo]) == [Report(Foo.loc, WrapFix(Foo.loc))];
    assert Wraps([Foo, Bar]) == [Report(Foo.loc, WrapFix(Foo.loc)), Report(Bar.loc, WrapFix(Bar.loc))];
    assert Wraps([Foo, Bar, Baz]) == Wraps([Foo, Bar]) + [Report(Baz.loc, WrapFix(Baz.loc))];
    assert Wraps(group) == Wraps(group[..3]);
  }

  /** The `else if` listeners leave the chain to the outermost if. */
  lemma ElseIfsSkipped()
    ensures Second == First.alternate.value && Third == Second.alternate.value
  {
  }

  // if (true)
  //   if (false) console.log('bar')
  const InnerBody := Other(Loc(23, 41, 2, 2, 22))
  const Inner := If(InnerBody, None, Loc(12, 41, 2, 2, 9))
  const Outer := If(Inner, None, Loc(0, 41, 1, 2, 0))
  const NestedSrc: string := "if (true)" + "\n  if (false) console.log('bar')"

  /** A nested if is wrapped as a whole; its own single-line body is accepted. */
  lemma NestedExample()
    ensures CheckSpec(BranchGroup(Outer)) == [Report(Inner.loc, WrapFix(Inner.loc))]
    ensures CheckSpec(BranchGroup(Inner)) == []
    ensures ApplyAll(NestedSrc, WrapFix(Inner.loc)) == "if (true)" + " {" + "\n  if (false) console.log('bar')" + "\n}"
  {
    assert BranchGroup(Outer) == [Inner];
    assert SomeRequire([Inner]) by { assert RequireCurly([Inner][0]); }
    assert [Inner][..0] == [];
    assert Wraps([Inner]) == [Report(Inner.loc, WrapFix(Inner.loc))];
    assert BranchGroup(Inner) == [InnerBody];
    SingleLineAccepted([InnerBody]);
    NestedText();
  }

  lemma NestedText()
    ensures ApplyAll(NestedSrc, WrapFix(Inner.loc)) == "if (true)" + " {" + "\n  if (false) console.log('bar')" + "\n}"
  {
    var head, tail := "if (true)", "\n  if (false) console.log('bar')";
    assert |head| == 9 && |tail| == 32;
    WrapText(NestedSrc, Inner.loc);
    assert NestedSrc[..9] == head && NestedSrc[9..] == tail;
    assert NestedSrc[9..41] == tail && NestedSrc[41..] == "";
  }

  // if (true)
  //   console.log('bar')
  // else
  //   console.log({
  //     foo
  //   })
  const Short := Other(Loc(12, 30, 2, 2, 9))
  const Long := Other(Loc(38, 64, 4, 6, 35))
  const Consistent := If(Short, Some(Long), Loc(0, 64, 1, 6, 0))

  /** One multi-line branch makes both branches wrapped. */
  lemma ConsistentReports()
    ensures CheckSpec(BranchGroup(Consistent)) == [Report(Short.loc, WrapFix(Short.loc)), Report(Long.loc, WrapFix(Long.loc))]
  {
    var group := [Short, Long];
    assert BranchGroup(Consistent) == group;
    assert SomeRequire(group) by { assert RequireCurly(group[1]); }
    assert group[..1][..0] == [];
    assert group[..1] == [Short];
    assert Wraps(group[..1]) == [Report(Short.loc, WrapFix(Short.loc))];
  }

  const Open1 := Insert(9, " {")
  const Close1 := Insert(30, "\n}")
  const Open2 := Insert(35, " {")
  const Close2 := Insert(64, "\n}")
  // The pieces of the source between the insertion points.
  const Cond1: string := "if (true)"
  const Body1: string := "\n  console.log('bar')"
  const Else: string := "\nelse"
  const Body2: string := "\n  console.log({\n    foo\n  })"
  const ConsistentSrc: string := Cond1 + Body1 + Else + Body2
  const ConsistentOut: string := Cond1 + " {" + Body1 + "\n}" + Rest

  // The text after each insertion, the last one first.
  const S1: string := Cond1 + Body1 + Else + Body2 + "\n}"
  const Rest: string := Else + " {" + Body2 + "\n}"
  const S2: string := Cond1 + Body1 + Rest
  const S3: string := Cond1 + Body1 + "\n}" + Rest

  lemma ConsistentStep1()
    ensures |ConsistentSrc| == 64
    ensures Fits(ConsistentSrc, Close2) && Apply(ConsistentSrc, Close2) == S1
  {
    InsertAtSeam(Cond1 + Body1 + Else + Body2, "", "\n}");
    assert Cond1 + Body1 + Else + Body2 + "" == ConsistentSrc;
  }

  lemma ConsistentStep2()
    ensures Fits(S1, Open2) && Apply(S1, Open2) == S2
  {
    var y := Cond1 + Body1;
    assert |y + Else| == 35;
    InsertAtSeam(y + Else, Body2 + "\n}", " {");
    ConcatAssoc(y + Else, Body2, "\n}");
    ConcatAssoc(Else + " {", Body2, "\n}");
    ConcatAssoc(y, Else + " {", Body2 + "\n}");
    ConcatAssoc(y, Else, " {");
  }

  lemma ConsistentStep3()
    ensures Fits(S2, Close1) && Apply(S2, Close1) == S3
  {
    assert |Cond1 + Body1| == 30;
    InsertAtSeam(Cond1 + Body1, Rest, "\n}");
  }

  lemma ConsistentStep4()
    ensures Fits(S3, Open1) && Apply(S3, Open1) == ConsistentOut
  {
    var b1, p := Body1 + "\n}", Cond1 + " {";
    assert |Cond1| == 9;
    InsertAtSeam(Cond1, b1 + Rest, " {");
    ConcatAssoc(Cond1, Body1, "\n}");
    ConcatAssoc(Cond1, b1, Rest);
    ConcatAssoc(p, b1, Rest);
    ConcatAssoc(p, Body1, "\n}");
  }

  /** Applied together, the four insertions give the braced text the test expects. */
  lemma ConsistentText()
    ensures var edits := [Open1, Close1, Open2, Close2];
      && Ordered(edits) && AllFit(ConsistentSrc, edits)
      && ApplyAll(ConsistentSrc, edits) == ConsistentOut
  {
    ConsistentStep1();
    ConsistentStep2();
    ConsistentStep3();
    ConsistentStep4();
    assert [Open1, Close1, Open2] + [Close2] == [Open1, Close1, Open2, Close2];
    ApplyLast(ConsistentSrc, [Open1, Close1, Open2], Close2);
    assert [Open1, Close1] + [Open2] == [Open1, Close1, Open2];
    ApplyLast(S1, [Open1, Close1], Open2);
    ApplyTwo(S2, Open1, Close1);
  }

  /** The fixes of the two reports are those four insertions. */
  lemma ConsistentFixes()
    ensures Fixes(CheckSpec(BranchGroup(Consistent))) == [Open1, Close1, Open2, Close2]
  {
    ConsistentReports();
    var rs := [Report(Short.loc, WrapFix(Short.loc)), Report(Long.loc, WrapFix(Long.loc))];
    assert Fixes(rs[1..]) == WrapFix(Long.loc);
  }

  // if (
  //   foo
  //   || bar
  // )
  //   return true
  const Condition := If(Other(Loc(25, 36, 5, 5, 22)), None, Loc(0, 36, 1, 5, 0))

  /**
   * Only the bodies are measured: a condition that spans several lines does
   * not make a single-line body need braces.
   */
  lemma MultilineConditionNotWrapped()
    ensures CheckSpec(BranchGroup(Condition)) == []
  {
    SingleLineAccepted(BranchGroup(Condition));
  }
}
