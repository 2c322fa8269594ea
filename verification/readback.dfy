/**
 * Reading a version block back from its markup.  Because the fields are
 * interpolated verbatim, a block determines the record it was rendered
 * from as long as the fields themselves contain no markup: no `<` in the
 * version, the date or an item's text, and no `"` in a type.
 */
module ReadBack {
  import opened Records
  import opened Markup

  /** `s` with the prefix `p` removed, if `s` starts with `p`. */
  function DropPrefix(p: string, s: string): (r: Option<string>)
    ensures r.Some? <==> p <= s
    ensures r.Some? ==> s == p + r.value
  {
    if p <= s then Some(s[|p|..]) else None
  }

  /** `s` with the suffix `p` removed, if `s` ends with `p`. */
  function DropSuffix(p: string, s: string): (r: Option<string>)
    ensures r.Some? <==> |p| <= |s| && s[|s| - |p|..] == p
    ensures r.Some? ==> s == r.value + p
  {
    if |p| <= |s| && s[|s| - |p|..] == p then Some(s[..|s| - |p|]) else None
  }

  /** `s` split before the first `c`: a part free of `c`, and the rest,
      which is empty or starts with `c`. */
  function SplitAt(c: char, s: string): (r: (string, string))
    ensures r.0 + r.1 == s
    ensures c !in r.0
    ensures r.1 == [] || r.1[0] == c
  {
    if s == [] || s[0] == c then ([], s)
    else
      var r := SplitAt(c, s[1..]);
      ([s[0]] + r.0, r.1)
  }

  /** The split is the only one with those properties. */
  lemma {:induction false} SplitAtUnique(c: char, a: string, b: string)
    requires c !in a && b != [] && b[0] == c
    ensures SplitAt(c, a + b) == (a, b)
  {
    if a != [] {
      assert (a + b)[0] == a[0] && a[0] != c;
      assert (a + b)[1..] == a[1..] + b;
      SplitAtUnique(c, a[1..], b);
      assert SplitAt(c, a + b) == ([a[0]] + a[1..], b);
      assert [a[0]] + a[1..] == a;
    } else {
      assert a + b == b;
    }
  }

  /** Removing a prefix gives back what followed it. */
  lemma DropPrefixOf(p: string, s: string)
    ensures DropPrefix(p, p + s) == Some(s)
  {
  }

  /** Removing a suffix gives back what preceded it. */
  lemma DropSuffixOf(p: string, s: string)
    ensures DropSuffix(p, s + p) == Some(s)
  {
  }

  /** Reads a tag span after its opening `<span class="tag `: yields the
      type and what follows the span, provided the span's text is the
      type's label. */
  function ParseSpan(s: string): (r: Option<(string, string)>)
    ensures r.Some? ==> |r.value.1| <= |s|
  {
    var (tag, afterTag) := SplitAt('"', s);
    var afterMid :- DropPrefix(SpanMid, afterTag);
    var (caption, afterLabel) := SplitAt('<', afterMid);
    if caption != TagText(tag) then None
    else
      var rest :- DropPrefix(SpanClose, afterLabel);
      Some((tag, rest))
  }

  /** Reads the closing of an item: the line break and `</li>`. */
  function ParseItemEnd(s: string): (r: Option<string>)
    ensures r.Some? ==> |r.value| < |s|
  {
    var afterBreak :- DropPrefix(ItemBreak, s);
    DropPrefix(ItemEnd, afterBreak)
  }

  /** Reads the rest of an item, given the item's text up to the first `<`
      and what follows it; yields the item and what follows the item. */
  function ParseItemTail(head: string, tail: string): (r: Option<(UpdateItem, string)>)
    ensures r.Some? ==> |r.value.1| < |tail|
  {
    if SpanOpen <= tail then
      var text :- DropSuffix(ItemMid, head);
      var span :- ParseSpan(tail[|SpanOpen|..]);
      var rest :- ParseItemEnd(span.1);
      Some((UpdateItem(text, Some(span.0)), rest))
    else
      var text :- DropSuffix(ItemMid + ItemBreak, head);
      var rest :- DropPrefix(ItemEnd, tail);
      Some((UpdateItem(text, None), rest))
  }

  /** Reads the items of a list and the list's closing markup. */
  function ParseItems(s: string): Option<seq<UpdateItem>>
    decreases |s|
  {
    if ItemOpen <= s then
      var (head, tail) := SplitAt('<', s[|ItemOpen|..]);
      var item :- ParseItemTail(head, tail);
      var items :- ParseItems(item.1);
      Some([item.0] + items)
    else if s == ListClose then Some([])
    else None
  }

  /** Reads a whole version block. */
  function ParseBlock(s: string): Option<VersionRecord>
  {
    var afterOpen :- DropPrefix(HeaderOpen, s);
    var (version, afterVersion) := SplitAt('<', afterOpen);
    var afterMid :- DropPrefix(HeaderMid, afterVersion);
    var (date, afterDate) := SplitAt('<', afterMid);
    var afterHeader :- DropPrefix(HeaderClose, afterDate);
    var updates :- ParseItems(afterHeader);
    Some(VersionRecord(version, date, updates))
  }

  /** An item whose fields carry no markup. */
  predicate PlainItem(u: UpdateItem)
  {
    '<' !in u.text && (u.tag.Some? ==> '"' !in u.tag.value)
  }

  /** A record whose fields carry no markup. */
  predicate PlainRecord(v: VersionRecord)
  {
    '<' !in v.version && '<' !in v.date && forall u <- v.updates :: PlainItem(u)
  }

  /** What the markup can tell about an item: an empty type shows exactly
      like a missing one. */
  function Shown(u: UpdateItem): UpdateItem
  {
    if HasTag(u.tag) then u else UpdateItem(u.text, None)
  }

  function ShownAll(us: seq<UpdateItem>): (r: seq<UpdateItem>)
    ensures |r| == |us|
  {
    if us == [] then [] else [Shown(us[0])] + ShownAll(us[1..])
  }

  /** The facts about the template's fixed text that reading relies on. */
  lemma TemplateFacts()
    ensures '<' !in ItemMid && '<' !in ItemBreak
    ensures ItemEnd[0] == '<' && SpanOpen[0] == '<' && SpanClose[0] == '<'
    ensures SpanMid[0] == '"' && HeaderMid[0] == '<' && HeaderClose[0] == '<'
    ensures !(ItemOpen <= ListClose)
    ensures forall rest :: !(SpanOpen <= ItemEnd + rest)
    ensures forall t :: '<' !in TagText(t)
  {
    assert ItemOpen[13] == ' ' && ListClose[13] == '<';
    forall rest ensures !(SpanOpen <= ItemEnd + rest) {
      assert (ItemEnd + rest)[1] == '/';
    }
  }

  /** A tag span reads back as its type, its text being the type's label. */
  lemma ReadSpan(t: string, rest: string)
    requires '"' !in t
    ensures ParseSpan(t + (SpanMid + (TagText(t) + (SpanClose + rest)))) == Some((t, rest))
  {
    TemplateFacts();
    var afterLabel := SpanClose + rest;
    var afterTag := SpanMid + (TagText(t) + afterLabel);
    SplitAtUnique('"', t, afterTag);
    DropPrefixOf(SpanMid, TagText(t) + afterLabel);
    SplitAtUnique('<', TagText(t), afterLabel);
    DropPrefixOf(SpanClose, rest);
  }

  /** After the text of a tagged item: the span, then the item's end. */
  lemma ReadTaggedTail(text: string, t: string, rest: string)
    requires '<' !in text && '"' !in t && t != ""
    ensures var (head, tail) := SplitAt('<', text + ItemMid + TagSpan(Some(t)) + ItemBreak + ItemEnd + rest);
            ParseItemTail(head, tail) == Some((UpdateItem(text, Some(t)), rest))
  {
    TemplateFacts();
    var afterSpan := ItemBreak + (ItemEnd + rest);
    var afterOpen := t + (SpanMid + (TagText(t) + (SpanClose + afterSpan)));
    var tail := SpanOpen + afterOpen;
    assert TagSpan(Some(t)) == SpanOpen + t + SpanMid + TagText(t) + SpanClose;
    SpliceSpan(text, ItemMid, SpanOpen, t, SpanMid, TagText(t), SpanClose, ItemBreak, ItemEnd, rest);
    SplitAtUnique('<', text + ItemMid, tail);
    DropSuffixOf(ItemMid, text);
    DropPrefixOf(SpanOpen, afterOpen);
    ReadSpan(t, afterSpan);
    DropPrefixOf(ItemBreak, ItemEnd + rest);
    DropPrefixOf(ItemEnd, rest);
  }

  /** The regrouping behind `ReadTaggedTail`, on opaque pieces. */
  lemma SpliceSpan(x: string, mid: string, so: string, t: string, sm: string, lab: string, sc: string,
                   br: string, end: string, rest: string)
    ensures x + mid + (so + t + sm + lab + sc) + br + end + rest
         == (x + mid) + (so + (t + (sm + (lab + (sc + (br + (end + rest)))))))
  {
  }

  /** After the text of an untagged item: only the item's end. */
  lemma ReadUntaggedTail(text: string, tag: Option<string>, rest: string)
    requires '<' !in text && !HasTag(tag)
    ensures var (head, tail) := SplitAt('<', text + ItemMid + TagSpan(tag) + ItemBreak + ItemEnd + rest);
            ParseItemTail(head, tail) == Some((UpdateItem(text, None), rest))
  {
    TemplateFacts();
    var tail := ItemEnd + rest;
    assert text + ItemMid + TagSpan(tag) + ItemBreak + ItemEnd + rest == (text + (ItemMid + ItemBreak)) + tail;
    SplitAtUnique('<', text + (ItemMid + ItemBreak), tail);
    DropSuffixOf(ItemMid + ItemBreak, text);
    DropPrefixOf(ItemEnd, rest);
  }

  /** One item reads back as what it shows, leaving what follows it. */
  lemma ReadItem(u: UpdateItem, rest: string)
    requires PlainItem(u)
    ensures ItemOpen <= ItemMarkup(u) + rest
    ensures var (head, tail) := SplitAt('<', (ItemMarkup(u) + rest)[|ItemOpen|..]);
            ParseItemTail(head, tail) == Some((Shown(u), rest))
  {
    var body := u.text + ItemMid + TagSpan(u.tag) + ItemBreak + ItemEnd + rest;
    Reassociate(ItemOpen, u.text, ItemMid, TagSpan(u.tag), ItemBreak, ItemEnd, rest);
    DropPrefixOf(ItemOpen, body);
    assert (ItemMarkup(u) + rest)[|ItemOpen|..] == body;
    if HasTag(u.tag) {
      ReadTaggedTail(u.text, u.tag.value, rest);
    } else {
      ReadUntaggedTail(u.text, u.tag, rest);
    }
  }

  /** Regroups a concatenation of seven pieces, on opaque pieces. */
  lemma Reassociate(p1: string, p2: string, p3: string, p4: string, p5: string, p6: string, p7: string)
    ensures p1 + p2 + p3 + p4 + p5 + p6 + p7 == p1 + (p2 + p3 + p4 + p5 + p6 + p7)
    ensures p1 + p2 + p3 + p4 + p5 + p6 + p7 == p1 + (p2 + (p3 + (p4 + (p5 + (p6 + p7)))))
  {
  }

  /** A list of items reads back, item by item and in order, as what it shows. */
  lemma {:induction false} ReadItems(us: seq<UpdateItem>)
    requires forall u <- us :: PlainItem(u)
    ensures ParseItems(ItemsMarkup(us) + ListClose) == Some(ShownAll(us))
  {
    TemplateFacts();
    if us == [] {
      assert ItemsMarkup(us) + ListClose == ListClose;
    } else {
      var rest := ItemsMarkup(us[1..]) + ListClose;
      assert ItemsMarkup(us) + ListClose == ItemMarkup(us[0]) + rest;
      ReadItem(us[0], rest);
      ReadItems(us[1..]);
    }
  }

  /** A block whose fields carry no markup reads back as the record it was
      rendered from: the version, the date, and every update in order with
      its text and, when it showed one, its type. */
  lemma ReadBlock(v: VersionRecord)
    requires PlainRecord(v)
    ensures ParseBlock(BlockMarkup(v)) == Some(VersionRecord(v.version, v.date, ShownAll(v.updates)))
  {
    TemplateFacts();
    var items := ItemsMarkup(v.updates) + ListClose;
    var afterDate := HeaderClose + items;
    var afterVersion := HeaderMid + (v.date + afterDate);
    Reassociate(HeaderOpen, v.version, HeaderMid, v.date, HeaderClose, ItemsMarkup(v.updates), ListClose);
    DropPrefixOf(HeaderOpen, v.version + afterVersion);
    SplitAtUnique('<', v.version, afterVersion);
    DropPrefixOf(HeaderMid, v.date + afterDate);
    SplitAtUnique('<', v.date, afterDate);
    DropPrefixOf(HeaderClose, items);
    ReadItems(v.updates);
  }
}
