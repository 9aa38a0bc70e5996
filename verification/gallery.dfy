/**
 * The gallery section: the category list derived from the items, the filter
 * bar built from it, the active-button state after a click, the filter that
 * picks the items to show, and the escaped attributes of each shown figure.
 */
module Gallery {
  import opened JsText
  import opened Wrappers
  import Escape

  /** One entry of `gallery.items`; an absent property is `Undefined`. */
  datatype Item = Item(src: JsValue, alt: JsValue, caption: JsValue, category: JsValue)

  /** The `data-filter` value of the synthetic first button. */
  const AllFilter: string := "all"

  /**
   * A filter button: its `data-filter` attribute as written into the markup
   * (escaped), its escaped text, and whether it carries the `active` class.
   */
  datatype Button = Button(dataFilter: string, text: string, active: bool)

  /** What the grid shows: every item for `"all"`, otherwise the items whose category is exactly `filter`. */
  predicate Shows(item: Item, filter: string) {
    filter == AllFilter || item.category == Str(filter)
  }

  /** The position of the first item whose category is exactly `c`, or `|items|` when there is none. */
  function FirstWith(items: seq<Item>, c: string): (k: nat)
    ensures k <= |items|
    ensures forall j :: 0 <= j < k ==> items[j].category != Str(c)
    ensures k < |items| ==> items[k].category == Str(c)
  {
    if |items| == 0 then 0
    else if items[0].category == Str(c) then 0
    else 1 + FirstWith(items[1..], c)
  }

  predicate NoDuplicates(cats: seq<string>) {
    forall i, j :: 0 <= i < j < |cats| ==> cats[i] != cats[j]
  }

  /**
   * `Array.from(new Set(items.map(i => i.category).filter(Boolean)))`: the
   * truthy categories, each once, in the order in which they first appear.
   */
  method DeriveCategories(items: seq<Item>) returns (cats: seq<string>)
    ensures NoDuplicates(cats)
    ensures forall c :: c in cats <==> c != "" && FirstWith(items, c) < |items|
    ensures forall i, j :: 0 <= i < j < |cats| ==> FirstWith(items, cats[i]) < FirstWith(items, cats[j])
  {
    cats := [];
    var k := 0;
    while k < |items|
      invariant k <= |items|
      invariant NoDuplicates(cats)
      invariant forall c :: c in cats <==> c != "" && FirstWith(items, c) < k
      invariant forall i, j :: 0 <= i < j < |cats| ==> FirstWith(items, cats[i]) < FirstWith(items, cats[j])
    {
      var v := items[k].category;
      if v.Str? && v.s != "" && v.s !in cats {
        assert FirstWith(items, v.s) == k;
        forall i | 0 <= i < |cats| ensures FirstWith(items, cats[i]) < k {
          assert cats[i] in cats;
        }
        cats := cats + [v.s];
      } else {
        assert forall c :: FirstWith(items, c) == k ==> items[k].category == Str(c);
      }
      k := k + 1;
    }
  }

  /** Every truthy category of an item is in the derived list. */
  lemma CategoriesCoverItems(items: seq<Item>, cats: seq<string>, k: int)
    requires forall c :: c in cats <==> c != "" && FirstWith(items, c) < |items|
    requires 0 <= k < |items| && Truthy(items[k].category)
    ensures items[k].category.s in cats
  {
    var c := items[k].category.s;
    assert FirstWith(items, c) <= k;
  }

  /**
   * The buttons rendered for a category list: "All" first and active, then one
   * inactive button per category, whose `data-filter` reads back as the
   * category after the parser's line-ending and NUL handling.
   */
  function FilterBar(cats: seq<string>): (bar: seq<Button>)
    ensures |bar| == |cats| + 1
    ensures ExactlyOneActive(bar, 0)
    ensures bar[0].dataFilter == AllFilter && Selected(bar[0]) == AllFilter
    ensures forall i :: 0 <= i < |cats| ==> Selected(bar[i + 1]) == Escape.Preprocess(cats[i], Escape.InAttribute)
  {
    AllFilterReadsBack();
    [Button(AllFilter, "All", true)] + CategoryButtons(cats)
  }

  /** The "all" attribute needs no escaping, so it reads back unchanged. */
  lemma AllFilterReadsBack()
    ensures Escape.ReadBack(AllFilter, Escape.InAttribute) == AllFilter
  {
    Escape.EscapeHtmlPlain(AllFilter);
    Escape.ReadBackEscaped(AllFilter, Escape.InAttribute);
    Escape.PreprocessPlain(AllFilter, Escape.InAttribute);
  }

  /**
   * One inactive button per category, in order; each `data-filter` attribute
   * reads back as its category with CR and CR LF turned into LF and NUL into
   * U+FFFD, so exactly as the category when it holds neither.
   */
  function CategoryButtons(cats: seq<string>): (buttons: seq<Button>)
    ensures |buttons| == |cats|
    ensures forall i :: 0 <= i < |cats| ==>
      Selected(buttons[i]) == Escape.Preprocess(cats[i], Escape.InAttribute) && !buttons[i].active
  {
    if cats == [] then []
    else
      Escape.ReadBackEscaped(cats[0], Escape.InAttribute);
      [Button(Escape.EscapeAttr(cats[0]), Escape.EscapeHtml(cats[0]), false)] + CategoryButtons(cats[1..])
  }

  /**
   * `btn.getAttribute('data-filter')`: the value the parser stored for the
   * attribute, its line endings and NULs normalized and its entities decoded.
   */
  function Selected(b: Button): string {
    Escape.ReadBack(b.dataFilter, Escape.InAttribute)
  }

  /** A category without CR and NUL reads back from its button exactly. */
  lemma PlainCategoryReadsBack(cats: seq<string>, i: int)
    requires 0 <= i < |cats| && Escape.ParserPlain(cats[i])
    ensures Selected(FilterBar(cats)[i + 1]) == cats[i]
  {
    Escape.PreprocessPlain(cats[i], Escape.InAttribute);
  }

  /**
   * A category holding CR LF gets a button that reads back with LF only: with
   * no item of that normalized category, a click on it empties the grid.
   */
  lemma CarriageReturnCategoryShowsNothing()
    ensures var items := [Item(Undefined, Undefined, Undefined, Str("a\r\nb"))];
      var bar := FilterBar(["a\r\nb"]);
      && Selected(bar[1]) == "a\nb"
      && FilterItems(items, Selected(bar[1])) == []
  {
    var t := "a\r\nb";
    var u := t[1..];
    assert u == "\r\nb" && u[2..] == "b";
    assert Escape.Preprocess("b", Escape.InAttribute) == "b";
    assert Escape.Preprocess(u, Escape.InAttribute) == "\nb";
    assert Escape.Preprocess(t, Escape.InAttribute) == "a\nb";
  }

  /**
   * A category holding CR or NUL gets a button whose value is neither the
   * category nor "all": the button shows only the items whose category is the
   * normalized value, never an item of the category it was made from, and
   * nothing when no item has the normalized value.
   */
  lemma NormalizedCategoryMissesItsItems(cats: seq<string>, i: int, items: seq<Item>)
    requires 0 <= i < |cats| && !Escape.ParserPlain(cats[i])
    ensures var sel := Selected(FilterBar(cats)[i + 1]);
      && sel != cats[i] && sel != AllFilter
      && (forall x :: x in FilterItems(items, sel) ==> x.category == Str(sel) && x.category != Str(cats[i]))
      && ((forall x :: x in items ==> x.category != Str(sel)) ==> FilterItems(items, sel) == [])
  {
    var sel := Selected(FilterBar(cats)[i + 1]);
    Escape.PreprocessNormalizes(cats[i]);
    assert sel == Escape.Preprocess(cats[i], Escape.InAttribute);
    assert sel != AllFilter by {
      if sel == AllFilter {
        assert forall j :: 0 <= j < |AllFilter| ==> AllFilter[j] != '\n' && AllFilter[j] != '\U{FFFD}';
      }
    }
    var shown := FilterItems(items, sel);
    forall x | x in shown ensures x.category == Str(sel) {
      assert multiset(shown)[x] > 0;
    }
    if (forall x :: x in items ==> x.category != Str(sel)) && shown != [] {
      assert multiset(shown)[shown[0]] > 0;
      assert multiset(items)[shown[0]] > 0;
      assert shown[0] in items;
    }
  }

  /** Button `k` is active and no other button is. */
  predicate ExactlyOneActive(bar: seq<Button>, k: int) {
    && 0 <= k < |bar|
    && bar[k].active
    && forall j :: 0 <= j < |bar| && j != k ==> !bar[j].active
  }

  /**
   * A click at position `k` of the filter bar: every button loses `active` and
   * the clicked one gets it. A click outside every button (`k` out of range)
   * changes nothing.
   */
  function Click(bar: seq<Button>, k: int): (r: seq<Button>)
    ensures |r| == |bar|
    ensures 0 <= k < |bar| ==> ExactlyOneActive(r, k)
    ensures !(0 <= k < |bar|) ==> r == bar
    ensures forall j :: 0 <= j < |bar| ==> r[j].dataFilter == bar[j].dataFilter && r[j].text == bar[j].text
  {
    if 0 <= k < |bar| then
      seq(|bar|, j requires 0 <= j < |bar| => bar[j].(active := j == k))
    else
      bar
  }

  /** `a` occurs in `b` in the same order, possibly with gaps. */
  ghost predicate IsSubsequence<T>(a: seq<T>, b: seq<T>)
    decreases |b|
  {
    if |a| == 0 then true
    else if |b| == 0 then false
    else (a[0] == b[0] && IsSubsequence(a[1..], b[1..])) || IsSubsequence(a, b[1..])
  }

  /**
   * `items.filter(i => filter === 'all' || i.category === filter)`: the shown
   * items keep their order, and each item occurs as often as in the input when
   * it matches the filter, and not at all otherwise.
   */
  function FilterItems(items: seq<Item>, filter: string): (shown: seq<Item>)
    ensures IsSubsequence(shown, items)
    ensures forall x :: multiset(shown)[x] == if Shows(x, filter) then multiset(items)[x] else 0
  {
    if |items| == 0 then []
    else
      var rest := FilterItems(items[1..], filter);
      assert items == [items[0]] + items[1..];
      if Shows(items[0], filter) then
        assert ([items[0]] + rest)[1..] == rest;
        [items[0]] + rest
      else
        rest
  }

  /** The "All" button shows every item, in order. */
  lemma {:induction false} FilterAllIsIdentity(items: seq<Item>)
    ensures FilterItems(items, AllFilter) == items
  {
    if |items| > 0 {
      FilterAllIsIdentity(items[1..]);
      assert items == [items[0]] + items[1..];
    }
  }

  /** Filtering distributes over concatenation. */
  lemma {:induction false} FilterConcat(a: seq<Item>, b: seq<Item>, filter: string)
    ensures FilterItems(a + b, filter) == FilterItems(a, filter) + FilterItems(b, filter)
  {
    if |a| == 0 {
      assert a + b == b;
    } else {
      assert (a + b)[0] == a[0];
      assert (a + b)[1..] == a[1..] + b;
      FilterConcat(a[1..], b, filter);
    }
  }

  /** The gallery's state: the items, the filter bar and the items in the grid. */
  datatype View = View(items: seq<Item>, bar: seq<Button>, shown: seq<Item>)

  /**
   * `buildGallery`: derive the categories, render the bar with "All" active,
   * show every item. `cats` is the derived list the bar is built from: every
   * truthy category once, in order of first appearance, each with its own
   * button after "All" in the same order.
   */
  method BuildGallery(items: seq<Item>) returns (v: View, cats: seq<string>)
    ensures v.items == items && v.shown == items
    ensures NoDuplicates(cats)
    ensures forall c :: c in cats <==> c != "" && FirstWith(items, c) < |items|
    ensures forall i, j :: 0 <= i < j < |cats| ==> FirstWith(items, cats[i]) < FirstWith(items, cats[j])
    ensures |v.bar| == |cats| + 1
    ensures ExactlyOneActive(v.bar, 0) && Selected(v.bar[0]) == AllFilter
    ensures forall i :: 0 <= i < |cats| ==> Selected(v.bar[i + 1]) == Escape.Preprocess(cats[i], Escape.InAttribute)
    ensures forall i, j :: 0 <= i < j < |cats| && Escape.ParserPlain(cats[i]) && Escape.ParserPlain(cats[j]) ==>
              Selected(v.bar[i + 1]) != Selected(v.bar[j + 1])
  {
    cats := DeriveCategories(items);
    var bar := FilterBar(cats);
    FilterAllIsIdentity(items);
    forall i, j | 0 <= i < j < |cats| && Escape.ParserPlain(cats[i]) && Escape.ParserPlain(cats[j])
      ensures Selected(bar[i + 1]) != Selected(bar[j + 1])
    {
      Escape.PreprocessPlain(cats[i], Escape.InAttribute);
      Escape.PreprocessPlain(cats[j], Escape.InAttribute);
    }
    v := View(items, bar, FilterItems(items, AllFilter));
  }

  /** A click on the filter bar: button `k` becomes the only active one and the grid is re-filtered by its value. */
  function OnFilterClick(v: View, k: int): (r: View)
    ensures r.items == v.items
    ensures 0 <= k < |v.bar| ==> ExactlyOneActive(r.bar, k)
    ensures |r.bar| == |v.bar|
    ensures forall j :: 0 <= j < |v.bar| ==> r.bar[j].dataFilter == v.bar[j].dataFilter && r.bar[j].text == v.bar[j].text
    ensures 0 <= k < |v.bar| ==> r.shown == FilterItems(v.items, Selected(v.bar[k]))
    ensures 0 <= k < |v.bar| ==> forall x :: x in r.shown <==> x in v.items && Shows(x, Selected(v.bar[k]))
    ensures !(0 <= k < |v.bar|) ==> r == v
  {
    if 0 <= k < |v.bar| then
      var shown := FilterItems(v.items, Selected(v.bar[k]));
      assert forall x :: x in shown <==> multiset(shown)[x] > 0;
      View(v.items, Click(v.bar, k), shown)
    else
      v
  }

  /**
   * A real category named `"all"` collides with the synthetic button: its
   * button decodes to `"all"` and so shows every item, including items of
   * other categories and items without one.
   */
  lemma CategoryNamedAllShowsEverything(v: View, k: int)
    requires 1 <= k < |v.bar| && Selected(v.bar[k]) == AllFilter
    ensures OnFilterClick(v, k).shown == v.items
  {
    FilterAllIsIdentity(v.items);
  }

  /** The attributes and caption of one rendered `<figure>`, all escaped. */
  datatype Figure = Figure(src: string, alt: string, dataCaption: string, figcaption: Option<string>)

  /**
   * The figure markup of `renderGalleryItems`: `src`, `alt` (falling back to the
   * caption, then to "Work sample") and `data-caption` (the caption, or `''`)
   * as escaped attributes, and a caption element only when the caption is
   * truthy. Each reads back as its value after the parser's line-ending and
   * NUL handling.
   */
  function RenderFigure(item: Item): (f: Figure)
    ensures '"' !in f.src && '"' !in f.alt && '"' !in f.dataCaption
    ensures Escape.ReadBack(f.src, Escape.InAttribute) == Escape.Preprocess(ToJsString(item.src), Escape.InAttribute)
    ensures f.alt != ""
    ensures Truthy(item.alt) ==>
      Escape.ReadBack(f.alt, Escape.InAttribute) == Escape.Preprocess(item.alt.s, Escape.InAttribute)
    ensures !Truthy(item.alt) && Truthy(item.caption) ==>
      Escape.ReadBack(f.alt, Escape.InAttribute) == Escape.Preprocess(item.caption.s, Escape.InAttribute)
    ensures !Truthy(item.alt) && !Truthy(item.caption) ==> Escape.ReadBack(f.alt, Escape.InAttribute) == "Work sample"
    ensures Escape.UnescapeHtml(f.dataCaption) == if Truthy(item.caption) then item.caption.s else ""
    ensures Escape.ReadBack(f.dataCaption, Escape.InAttribute)
            == if Truthy(item.caption) then Escape.Preprocess(item.caption.s, Escape.InAttribute) else ""
    ensures f.figcaption.Some? <==> Truthy(item.caption)
    ensures f.figcaption.Some? ==>
      Escape.ReadBack(f.figcaption.value, Escape.InText) == Escape.Preprocess(item.caption.s, Escape.InText)
  {
    Escape.ReadBackEscaped(ToJsString(item.caption), Escape.InText);
    Figure(
      AttributeOf(ToJsString(item.src)),
      AttributeOf(AltText(item)),
      AttributeOf(ToJsString(Or(item.caption, Str("")))),
      if Truthy(item.caption) then Some(Escape.EscapeHtml(item.caption.s)) else None)
  }

  /** `i.alt || i.caption || 'Work sample'`: never empty, and free of CR and NUL in the fallback case. */
  function AltText(item: Item): (a: string)
    ensures a != ""
    ensures Truthy(item.alt) ==> a == item.alt.s
    ensures !Truthy(item.alt) && Truthy(item.caption) ==> a == item.caption.s
    ensures !Truthy(item.alt) && !Truthy(item.caption) ==>
      a == "Work sample" && Escape.Preprocess(a, Escape.InAttribute) == a
  {
    Escape.PreprocessPlain("Work sample", Escape.InAttribute);
    ToJsString(Or(Or(item.alt, item.caption), Str("Work sample")))
  }

  /**
   * `escapeAttr(s)` written into a double-quoted attribute: it cannot close the
   * quotes, its entities decode to `s`, and it reads back as `s` after the
   * parser's handling.
   */
  function AttributeOf(s: string): (a: string)
    ensures '"' !in a
    ensures Escape.UnescapeHtml(a) == s
    ensures Escape.ReadBack(a, Escape.InAttribute) == Escape.Preprocess(s, Escape.InAttribute)
  {
    Escape.EscapeRoundTrip(s);
    Escape.ReadBackEscaped(s, Escape.InAttribute);
    Escape.EscapeAttr(s)
  }
}
