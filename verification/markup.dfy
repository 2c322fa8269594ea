/**
 * The markup `renderChangelog` writes into each version block: a header
 * with the version and date, then one list item per update, each with an
 * optional tag span.  Every field is interpolated as it is, unescaped.
 */
module Markup {
  import opened Records

  /** The localised label of each known update type. */
  const TagLabels: map<string, string> := map["feature" := "Yeni", "bugfix" := "Bugfix", "improvement" := "Deneysel"]

  /** `getTagText`: a switch on the type with an empty default. */
  function TagText(tag: string): (caption: string)
    ensures caption == if tag in TagLabels then TagLabels[tag] else ""
    ensures caption != "" <==> tag in TagLabels
  {
    if tag == "feature" then "Yeni"
    else if tag == "bugfix" then "Bugfix"
    else if tag == "improvement" then "Deneysel"
    else ""
  }

  /** Distinct known types get distinct labels, so a label names its type. */
  lemma TagLabelNamesTag(a: string, b: string)
    requires TagText(a) != "" && TagText(a) == TagText(b)
    ensures a == b
  {
  }

  /** `n` blanks of indentation. */
  function Spaces(n: nat): (s: string)
    ensures |s| == n && forall i :: 0 <= i < n ==> s[i] == ' '
  {
    seq(n, _ => ' ')
  }

  /** A line break followed by `n` blanks: how the template's lines join. */
  function Line(n: nat): (s: string)
    ensures |s| == n + 1 && s[0] == '\n' && forall i :: 1 <= i <= n ==> s[i] == ' '
  {
    "\n" + Spaces(n)
  }

  // The fixed text of the block template, between the interpolated fields.
  const HeaderOpen: string := Line(12) + "<div class=\"version-header\">" + Line(16) + "<h2>Version "
  const HeaderMid: string := "</h2>" + Line(16) + "<span class=\"version-date\">"
  const HeaderClose: string := "</span>" + Line(12) + "</div>" + Line(12) + "<ul class=\"update-list\">" + Line(16)
  const ListClose: string := Line(12) + "</ul>" + Line(8)

  // The fixed text of the item template.
  const ItemOpen: string := Line(20) + "<li class=\"update-item\">" + Line(24)
  const ItemMid: string := Line(24)
  const ItemBreak: string := Line(20)
  const ItemEnd: string := "</li>" + Line(16)

  // The fixed text of the tag span.
  const SpanOpen: string := "<span class=\"tag "
  const SpanMid: string := "\">"
  const SpanClose: string := "</span>"

  /** The type is truthy: present and not the empty string. */
  predicate HasTag(tag: Option<string>)
  {
    tag.Some? && tag.value != ""
  }

  /** The tag span of an item, or nothing when the type is falsy. */
  function TagSpan(tag: Option<string>): (span: string)
    ensures span != "" <==> HasTag(tag)
  {
    if HasTag(tag) then SpanOpen + tag.value + SpanMid + TagText(tag.value) + SpanClose else ""
  }

  /** The markup of one update item. */
  function ItemMarkup(u: UpdateItem): (m: string)
  {
    ItemOpen + u.text + ItemMid + TagSpan(u.tag) + ItemBreak + ItemEnd
  }

  /** `updates.map(itemTemplate).join('')`. */
  function ItemsMarkup(us: seq<UpdateItem>): (m: string)
    ensures m == "" <==> us == []
  {
    if us == [] then "" else ItemMarkup(us[0]) + ItemsMarkup(us[1..])
  }

  /** The `innerHTML` of one version block. */
  function BlockMarkup(v: VersionRecord): (m: string)
    ensures HeaderOpen <= m
    ensures |m| >= |ListClose| && m[|m| - |ListClose|..] == ListClose
  {
    HeaderOpen + v.version + HeaderMid + v.date + HeaderClose + ItemsMarkup(v.updates) + ListClose
  }

  /** A truthy type's span carries the type as its class and the type's
      label as its text, verbatim. */
  lemma TagSpanShowsLabel(t: string)
    requires t != ""
    ensures var span := TagSpan(Some(t));
      var at := |SpanOpen| + |t| + |SpanMid|;
      && |span| == at + |TagText(t)| + |SpanClose|
      && span[..|SpanOpen|] == SpanOpen
      && span[|SpanOpen|..|SpanOpen| + |t|] == t
      && span[|SpanOpen| + |t|..at] == SpanMid
      && span[at..at + |TagText(t)|] == TagText(t)
      && span[at + |TagText(t)|..] == SpanClose
  {
    Pieces5(SpanOpen, t, SpanMid, TagText(t), SpanClose);
  }

  /** Whatever the update holds, its item opens with the item markup, then
      shows the text verbatim, then the tag span, then closes. */
  lemma ItemShowsFields(u: UpdateItem)
    ensures var m := ItemMarkup(u);
      var at := |ItemOpen| + |u.text| + |ItemMid|;
      && |m| == at + |TagSpan(u.tag)| + |ItemBreak + ItemEnd|
      && m[..|ItemOpen|] == ItemOpen
      && m[|ItemOpen|..|ItemOpen| + |u.text|] == u.text
      && m[|ItemOpen| + |u.text|..at] == ItemMid
      && m[at..at + |TagSpan(u.tag)|] == TagSpan(u.tag)
      && m[at + |TagSpan(u.tag)|..] == ItemBreak + ItemEnd
  {
    Pieces5(ItemOpen, u.text, ItemMid, TagSpan(u.tag), ItemBreak + ItemEnd);
    assert ItemMarkup(u) == ItemOpen + u.text + ItemMid + TagSpan(u.tag) + (ItemBreak + ItemEnd);
  }

  /** Where the five pieces of a concatenation sit, on opaque pieces. */
  lemma Pieces5(a: string, b: string, c: string, d: string, e: string)
    ensures var m := a + b + c + d + e;
      var at := |a| + |b| + |c|;
      && |m| == at + |d| + |e|
      && m[..|a|] == a
      && m[|a|..|a| + |b|] == b
      && m[|a| + |b|..at] == c
      && m[at..at + |d|] == d
      && m[at + |d|..] == e
  {
  }

  /** An unknown non-empty type still gets a span, with an empty label. */
  lemma UnknownTagHasEmptyLabel(t: string)
    requires t != "" && t !in TagLabels
    ensures TagSpan(Some(t)) == SpanOpen + t + SpanMid + SpanClose
  {
  }

  /** The items of a list are laid out one after another, in list order. */
  lemma {:induction false} ItemsMarkupAppend(a: seq<UpdateItem>, b: seq<UpdateItem>)
    ensures ItemsMarkup(a + b) == ItemsMarkup(a) + ItemsMarkup(b)
  {
    if a == [] {
      assert a + b == b;
    } else {
      assert (a + b)[0] == a[0];
      assert (a + b)[1..] == a[1..] + b;
      ItemsMarkupAppend(a[1..], b);
    }
  }

  /** Whatever the record holds, its block shows `Version ` and the version
      verbatim, and later the date verbatim. */
  lemma BlockShowsHeader(v: VersionRecord)
    ensures var m := BlockMarkup(v);
            var p := |HeaderOpen| - 8;
            var q := |HeaderOpen| + |v.version| + |HeaderMid|;
            && p + 8 + |v.version| < q && q + |v.date| <= |m|
            && m[p..p + 8 + |v.version|] == "Version " + v.version
            && m[q..q + |v.date|] == v.date
  {
  }

  /** Item text is not escaped: a text that carries item markup renders
      exactly like two separate items, the first of them tagged. */
  lemma TextCanForgeItems(a: string, b: string, t: string)
    requires t != ""
    ensures var forged := a + ItemMid + TagSpan(Some(t)) + ItemBreak + ItemEnd + ItemOpen + b;
            ItemsMarkup([UpdateItem(forged, None)])
              == ItemsMarkup([UpdateItem(a, Some(t)), UpdateItem(b, None)])
  {
    var forged := a + ItemMid + TagSpan(Some(t)) + ItemBreak + ItemEnd + ItemOpen + b;
    var first, second := UpdateItem(a, Some(t)), UpdateItem(b, None);
    assert ItemsMarkup([UpdateItem(forged, None)]) == ItemMarkup(UpdateItem(forged, None)) by {
      assert [UpdateItem(forged, None)][1..] == [];
    }
    assert ItemsMarkup([first, second]) == ItemMarkup(first) + ItemMarkup(second) by {
      assert [first, second][1..] == [second] && [second][1..] == [];
      assert ItemsMarkup([second]) == ItemMarkup(second) + ItemsMarkup([]);
    }
    Regroup(ItemOpen, a, ItemMid, TagSpan(Some(t)), ItemBreak, ItemEnd, b);
  }

  /** The regrouping behind `TextCanForgeItems`, on opaque pieces. */
  lemma Regroup(open: string, a: string, mid: string, span: string, br: string, end: string, b: string)
    ensures open + (a + mid + span + br + end + open + b) + mid + "" + br + end
         == (open + a + mid + span + br + end) + (open + b + mid + "" + br + end)
  {
  }
}
