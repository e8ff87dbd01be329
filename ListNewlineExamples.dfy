/**
 * Two cases from the rule's test suite, worked through the model: the fixes
 * the check computes and the text they produce.
 */
module ListNewlineExamples {
  import opened Layout
  import opened ListNewline

  // `interface Foo {a: 1\nb: 2\n}`: the members are joined and get "," delimiters.
  const Src: string := "interface Foo {a: 1\nb: 2\n}"
  const A: Item := Item(1, 1, 15, 19, false, false)
  const B: Item := Item(2, 2, 20, 24, false, false)

  lemma InterfaceItems()
    ensures WellFormed([A, B], Src)
    ensures ItemWalk(TSInterfaceDeclaration, Src, [A, B], 1) == ([Report(ShouldNotWrap, 1, Edit(19, 20, ","))], 2)
  {
    var items := [A, B];
    assert Gap(Src, items, 1) == "\n";
    assert Src[15..19] == "a: 1";
    assert Delimiter(TSInterfaceDeclaration, Src, A) == ",";
    assert ReplaceLineBreaks("\n", ",") == ",";
    var step := ItemStep(TSInterfaceDeclaration, Src, items, 1, Inline, 1);
    assert step == (Some(Report(ShouldNotWrap, 1, Edit(19, 20, ","))), 2);
    var rest := Walk(TSInterfaceDeclaration, Src, items, 2, Inline, step.1);
    assert rest == ([], 2);
    assert ToSeq(step.0) + rest.0 == [Report(ShouldNotWrap, 1, Edit(19, 20, ","))];
  }

  lemma InterfaceBoundary()
    ensures WellFormed([A, B], Src)
    ensures BoundaryStep(TSInterfaceDeclaration, Src, [A, B], Inline, 2, Pos(26, 3))
         == Some(Report(ShouldNotWrap, 1, Edit(24, 26, ",}")))
  {
    assert Src[20..24] == "b: 2";
    assert Src[24..26] == "\n}";
    assert ReplaceLineBreaks("\n}", ",") == ",}" by {
      assert ReplaceLineBreaks("}", ",") == "}";
    }
  }

  lemma InterfaceApply()
    ensures ApplyAll(Src, [Edit(19, 20, ","), Edit(24, 26, ",}")]) == "interface Foo {a: 1,b: 2,}"
  {
    var once := Apply(Src, Edit(24, 26, ",}"));
    assert once == "interface Foo {a: 1\nb: 2,}";
    assert Apply(once, Edit(19, 20, ",")) == "interface Foo {a: 1,b: 2,}";
  }

  lemma InterfaceExample()
    ensures var children := [Some(A), Some(B)];
            && CheckInputs(children, Src, None, Pos(26, 3))
            && CheckSpec(TSInterfaceDeclaration, children, Src, 1, 3, None, Pos(26, 3))
               == [Report(ShouldNotWrap, 1, Edit(19, 20, ",")), Report(ShouldNotWrap, 1, Edit(24, 26, ",}"))]
            && ApplyAll(Src, Fixes(CheckSpec(TSInterfaceDeclaration, children, Src, 1, 3, None, Pos(26, 3))))
               == "interface Foo {a: 1,b: 2,}"
  {
    var children := [Some(A), Some(B)];
    assert Present(children) == [A, B] by {
      assert Present(children[1..]) == [B];
    }
    InterfaceItems();
    InterfaceBoundary();
    var rs := CheckSpec(TSInterfaceDeclaration, children, Src, 1, 3, None, Pos(26, 3));
    assert rs == [Report(ShouldNotWrap, 1, Edit(19, 20, ",")), Report(ShouldNotWrap, 1, Edit(24, 26, ",}"))];
    assert Fixes(rs) == [Edit(19, 20, ","), Edit(24, 26, ",}")];
    InterfaceApply();
  }

  // An object literal written with "\r\n" line ends: both halves of each pair go.
  const CrlfSrc: string := "const a = {foo: \"bar\", \r\nbar: 2\r\n}"
  const Foo: Item := Item(1, 1, 11, 21, false, false)
  const Bar: Item := Item(2, 2, 25, 31, false, false)

  lemma CrlfGap()
    ensures WellFormed([Foo, Bar], CrlfSrc) && Gap(CrlfSrc, [Foo, Bar], 1) == ", \r\n"
  {
    assert CrlfSrc[21..25] == ", \r\n";
  }

  /** A "\r\n" pair goes as a whole. */
  lemma CrlfJoin()
    ensures ReplaceLineBreaks(", \r\n", "") == ", "
  {
    assert ReplaceLineBreaks("\r\n", "") == "";
    assert ReplaceLineBreaks(" \r\n", "") == " ";
  }

  lemma CrlfStep()
    ensures WellFormed([Foo, Bar], CrlfSrc)
    ensures ItemStep(ObjectExpression, CrlfSrc, [Foo, Bar], 1, Inline, 1)
         == (Some(Report(ShouldNotWrap, 1, Edit(21, 25, ", "))), 2)
  {
    CrlfGap();
    CrlfJoin();
    assert '\n' in ", \r\n";
  }

  lemma CrlfItems()
    ensures WellFormed([Foo, Bar], CrlfSrc)
    ensures ItemWalk(ObjectExpression, CrlfSrc, [Foo, Bar], 1) == ([Report(ShouldNotWrap, 1, Edit(21, 25, ", "))], 2)
  {
    var items := [Foo, Bar];
    CrlfStep();
    var step := ItemStep(ObjectExpression, CrlfSrc, items, 1, Inline, 1);
    var rest := Walk(ObjectExpression, CrlfSrc, items, 2, Inline, step.1);
    assert rest == ([], 2);
    assert ToSeq(step.0) + rest.0 == [Report(ShouldNotWrap, 1, Edit(21, 25, ", "))];
  }

  lemma CrlfBoundary()
    ensures WellFormed([Foo, Bar], CrlfSrc)
    ensures BoundaryStep(ObjectExpression, CrlfSrc, [Foo, Bar], Inline, 2, Pos(34, 3))
         == Some(Report(ShouldNotWrap, 1, Edit(31, 34, "}")))
  {
    assert CrlfSrc[31..34] == "\r\n}";
    assert ReplaceLineBreaks("\r\n}", "") == "}" by {
      assert ReplaceLineBreaks("}", "") == "}";
    }
  }

  lemma CrlfApply()
    ensures ApplyAll(CrlfSrc, [Edit(21, 25, ", "), Edit(31, 34, "}")]) == "const a = {foo: \"bar\", bar: 2}"
  {
    var once := Apply(CrlfSrc, Edit(31, 34, "}"));
    assert once == "const a = {foo: \"bar\", \r\nbar: 2}";
    assert Apply(once, Edit(21, 25, ", ")) == "const a = {foo: \"bar\", bar: 2}";
  }

  lemma CrlfExample()
    ensures var children := [Some(Foo), Some(Bar)];
            && CheckInputs(children, CrlfSrc, None, Pos(34, 3))
            && CheckSpec(ObjectExpression, children, CrlfSrc, 1, 3, None, Pos(34, 3))
               == [Report(ShouldNotWrap, 1, Edit(21, 25, ", ")), Report(ShouldNotWrap, 1, Edit(31, 34, "}"))]
            && ApplyAll(CrlfSrc, Fixes(CheckSpec(ObjectExpression, children, CrlfSrc, 1, 3, None, Pos(34, 3))))
               == "const a = {foo: \"bar\", bar: 2}"
  {
    var children := [Some(Foo), Some(Bar)];
    assert Present(children) == [Foo, Bar] by {
      assert Present(children[1..]) == [Bar];
    }
    CrlfItems();
    CrlfBoundary();
    var rs := CheckSpec(ObjectExpression, children, CrlfSrc, 1, 3, None, Pos(34, 3));
    assert rs == [Report(ShouldNotWrap, 1, Edit(21, 25, ", ")), Report(ShouldNotWrap, 1, Edit(31, 34, "}"))];
    assert Fixes(rs) == [Edit(21, 25, ", "), Edit(31, 34, "}")];
    CrlfApply();
  }
}
