/** Whole-session walks through the model: editing, sharing, viewing. */
module Scenarios {
  import opened Optional
  import opened ListModel
  import opened Editor
  import opened DocumentStore
  import opened UriComponent
  import opened Render

  /** Title "Menu", one text item "Soup - $5", shared under id "1700": the
      link is `<origin>/list/1700` and the view of that id shows the item. */
  lemma ShareMenuAndView(store: Store, origin: string)
    ensures var d := ApplyAll(EmptyList, [SetTitle("Menu"), AddText("1"), Update("1", ContentField, "Soup - $5")]);
      var shared := GenerateListUrl(store, d, origin, "1700");
      && shared.url == origin + "/list/1700"
      && LoadView(shared.store, Some("1700")).Found?
      && LoadView(shared.store, Some("1700")).doc.items[0].content == "Soup - $5"
  {
  }

  /** A script of four actions runs them one after another. */
  lemma RunFour(d: ListData, e0: Edit, e1: Edit, e2: Edit, e3: Edit)
    ensures ApplyAll(d, [e0, e1, e2, e3]) == Apply(Apply(Apply(Apply(d, e0), e1), e2), e3)
  {
    var d1 := Apply(d, e0);
    var d2 := Apply(d1, e1);
    var d3 := Apply(d2, e2);
    var d4 := Apply(d3, e3);
    assert [e3][1..] == [];
    assert ApplyAll(d3, [e3]) == d4;
    assert [e2, e3][1..] == [e3];
    assert ApplyAll(d2, [e2, e3]) == d4;
    assert [e1, e2, e3][1..] == [e2, e3];
    assert ApplyAll(d1, [e1, e2, e3]) == d4;
    assert [e0, e1, e2, e3][1..] == [e1, e2, e3];
  }

  /** Three text items a, b, c added in that order; moving b up gives
      b, a, c. */
  lemma MoveSecondUp(a: string, b: string, c: string)
    requires a != b && b != c && a != c
    ensures ApplyAll(EmptyList, [AddText(a), AddText(b), AddText(c), Move(b, Up)]).items
      == [NewTextItem(b), NewTextItem(a), NewTextItem(c)]
  {
    RunFour(EmptyList, AddText(a), AddText(b), AddText(c), Move(b, Up));
    AddThreeTexts(a, b, c);
    MoveSecondOfThreeUp(Apply(Apply(Apply(EmptyList, AddText(a)), AddText(b)), AddText(c)), a, b, c);
  }

  lemma AddThreeTexts(a: string, b: string, c: string)
    ensures Apply(Apply(Apply(EmptyList, AddText(a)), AddText(b)), AddText(c)).items
      == [NewTextItem(a), NewTextItem(b), NewTextItem(c)]
  {
  }

  lemma MoveSecondOfThreeUp(d: ListData, a: string, b: string, c: string)
    requires a != b && b != c && a != c
    requires d.items == [NewTextItem(a), NewTextItem(b), NewTextItem(c)]
    ensures Apply(d, Move(b, Up)).items == [NewTextItem(b), NewTextItem(a), NewTextItem(c)]
  {
  }

  /** An id that was never stored draws the Not Found page. */
  lemma NeverStoredIdIsNotFound()
    ensures ViewPage(LoadView(map[], Some("42"))) == NotFoundPage
  {
  }

  /** A path separator in a link is escaped; the letters around it are not. */
  lemma EncodeShareLinkExample()
    ensures EncodeUriComponent("a/b") == "a%2Fb"
  {
  }
}
