/** The proof-of-concept page (`write_deeplinks_to_file`): an HTML document
    with a heading per activity and a link per deep link that mentions
    `http`. Writing the page to a file is not modelled: the method returns
    the text it would write. */
module Poc {
  import opened Strings
  import opened Manifest
  import Audit

  const Header := "<!DOCTYPE html>\n<html>\n<body>\n<div>\n"
  const Footer := "</div>\n</body>\n</html>"

  /** One piece of the page body. */
  datatype Block = Heading(activity: string) | Anchor(deeplink: string)

  /** A block as it is written, without any escaping of its string. */
  function Text(b: Block): string {
    match b
    case Heading(a) => "<h3>" + a + "</h3>\n"
    case Anchor(d) => "<a href=\"" + d + "\">" + d + "</a></br>"
  }

  function RenderBlocks(bs: seq<Block>): string {
    if bs == [] then "" else RenderBlocks(bs[..|bs| - 1]) + Text(bs[|bs| - 1])
  }

  /** A deep link gets a link on the page when `http` occurs anywhere in it. */
  predicate Linkable(deeplink: string) {
    Contains(deeplink, Audit.Http)
  }

  /** An anchor per link, in order. */
  function Anchors(links: seq<string>): (r: seq<Block>)
    ensures |r| == |links|
    ensures forall i :: 0 <= i < |links| ==> r[i] == Anchor(links[i])
  {
    if links == [] then [] else [Anchor(links[0])] + Anchors(links[1..])
  }

  /** The deep links of one activity that get a link, in sorted order. */
  function ActivityLinks(handlers: Handlers): seq<string> {
    Filter(Linkable, Sort(Keys(handlers)))
  }

  function ActivityBlocks(activity: string, handlers: Handlers): seq<Block> {
    [Heading(activity)] + Anchors(ActivityLinks(handlers))
  }

  /** The page body: the blocks of each activity, in the order given. */
  function Layout(acts: DeepLinks): (bs: seq<Block>)
    ensures |bs| >= |acts|
  {
    if acts == [] then []
    else Layout(acts[..|acts| - 1]) + ActivityBlocks(acts[|acts| - 1].0, acts[|acts| - 1].1)
  }

  lemma LayoutLast(acts: DeepLinks)
    requires acts != []
    ensures Layout(acts) == Layout(acts[..|acts| - 1]) + ActivityBlocks(acts[|acts| - 1].0, acts[|acts| - 1].1)
  {
  }

  /** The page: it always starts with the header and ends with the footer. */
  function Document(acts: DeepLinks): (d: string)
    ensures |Header| + |Footer| <= |d|
    ensures d[..|Header|] == Header
    ensures d[|d| - |Footer|..] == Footer
  {
    Header + RenderBlocks(Layout(acts)) + Footer
  }

  /** The links written for `links`, in order, as text. */
  function LinksText(links: seq<string>): string {
    if links == [] then ""
    else
      var last := links[|links| - 1];
      LinksText(links[..|links| - 1]) + (if Linkable(last) then Text(Anchor(last)) else "")
  }

  lemma RenderSnoc(bs: seq<Block>, b: Block)
    ensures RenderBlocks(bs + [b]) == RenderBlocks(bs) + Text(b)
  {
    assert (bs + [b])[..|bs|] == bs;
  }

  lemma {:induction false} RenderAppend(a: seq<Block>, b: seq<Block>)
    ensures RenderBlocks(a + b) == RenderBlocks(a) + RenderBlocks(b)
    decreases |b|
  {
    if b == [] {
      assert a + b == a;
    } else {
      var init := b[..|b| - 1];
      var last := b[|b| - 1];
      assert b == init + [last];
      assert a + b == (a + init) + [last];
      RenderAppend(a, init);
      RenderSnoc(a + init, last);
      RenderSnoc(init, last);
      AppendAssoc(RenderBlocks(a), RenderBlocks(init), Text(last));
    }
  }

  lemma AnchorsSnoc(links: seq<string>, d: string)
    ensures Anchors(links + [d]) == Anchors(links) + [Anchor(d)]
  {
  }

  lemma FilterOne(d: string)
    ensures Filter(Linkable, [d]) == if Linkable(d) then [d] else []
  {
    assert [d][1..] == [];
  }

  lemma {:induction false} LinksTextRenders(links: seq<string>)
    ensures LinksText(links) == RenderBlocks(Anchors(Filter(Linkable, links)))
    decreases |links|
  {
    if links != [] {
      var init := links[..|links| - 1];
      var last := links[|links| - 1];
      assert links == init + [last];
      LinksTextRenders(init);
      FilterAppend(Linkable, init, [last]);
      FilterOne(last);
      if Linkable(last) {
        AnchorsSnoc(Filter(Linkable, init), last);
        RenderSnoc(Anchors(Filter(Linkable, init)), Anchor(last));
      } else {
        var kept := Filter(Linkable, init);
        assert Filter(Linkable, links) == kept + [] == kept;
        assert LinksText(links) == LinksText(init) + "" == LinksText(init);
      }
    }
  }

  /** The text of one more activity: its heading, then its links. */
  lemma LayoutSnocText(acts: DeepLinks, i: nat)
    requires i < |acts|
    ensures RenderBlocks(Layout(acts[..i + 1]))
            == RenderBlocks(Layout(acts[..i])) + Text(Heading(acts[i].0)) + LinksText(Sort(Keys(acts[i].1)))
  {
    var before := Layout(acts[..i]);
    var heading := Heading(acts[i].0);
    var sorted := Sort(Keys(acts[i].1));
    var anchors := Anchors(Filter(Linkable, sorted));
    assert acts[..i + 1][..i] == acts[..i];
    assert Layout(acts[..i + 1]) == before + ([heading] + anchors);
    RenderAppend(before, [heading] + anchors);
    RenderAppend([heading], anchors);
    assert RenderBlocks([heading]) == Text(heading) by {
      assert [heading][..0] == [];
      assert RenderBlocks([heading]) == "" + Text(heading);
    }
    LinksTextRenders(sorted);
    var x, y, z := RenderBlocks(before), Text(heading), LinksText(sorted);
    assert RenderBlocks([heading] + anchors) == y + z;
    assert RenderBlocks(Layout(acts[..i + 1])) == x + (y + z);
    AppendAssoc(x, y, z);
  }

  /** `write_deeplinks_to_file`, up to the file write: the header, then for
      each activity its heading and a link for each of its sorted deep links
      that mentions `http`, then the footer. */
  method WriteDeeplinksToFile(activityHandlers: DeepLinks) returns (html: string)
    ensures html == Document(activityHandlers)
  {
    html := Header;
    var i := 0;
    while i < |activityHandlers|
      invariant 0 <= i <= |activityHandlers|
      invariant html == Header + RenderBlocks(Layout(activityHandlers[..i]))
    {
      var activity := activityHandlers[i].0;
      var handlers := activityHandlers[i].1;
      ghost var before := html;
      var heading := "<h3>" + activity + "</h3>\n";
      html := html + heading;
      var sorted := Sort(Keys(handlers));
      var j := 0;
      assert sorted[..0] == [];
      assert html == (before + heading) + LinksText(sorted[..0]);
      while j < |sorted|
        invariant 0 <= j <= |sorted|
        invariant html == (before + heading) + LinksText(sorted[..j])
      {
        var deeplink := sorted[j];
        assert sorted[..j + 1][..j] == sorted[..j];
        ghost var done := LinksText(sorted[..j]);
        if Linkable(deeplink) {
          var link := "<a href=\"" + deeplink + "\">" + deeplink + "</a></br>";
          assert LinksText(sorted[..j + 1]) == done + link;
          AppendAssoc(before + heading, done, link);
          html := html + link;
        } else {
          assert LinksText(sorted[..j + 1]) == done + "" == done;
        }
        j := j + 1;
      }
      assert sorted[..j] == sorted;
      LayoutSnocText(activityHandlers, i);
      ghost var shown := RenderBlocks(Layout(activityHandlers[..i]));
      AppendAssoc(Header, shown, heading);
      AppendAssoc(Header, shown + heading, LinksText(sorted));
      i := i + 1;
    }
    assert activityHandlers[..i] == activityHandlers;
    html := html + Footer;
  }

  // ---------------------------------------------------------------------------
  // Properties of the page
  // ---------------------------------------------------------------------------

  /** The activities that have a heading, in page order. */
  function Headings(bs: seq<Block>): seq<string> {
    if bs == [] then []
    else (if bs[0].Heading? then [bs[0].activity] else []) + Headings(bs[1..])
  }

  lemma {:induction false} HeadingsAppend(a: seq<Block>, b: seq<Block>)
    ensures Headings(a + b) == Headings(a) + Headings(b)
    decreases |a|
  {
    if a == [] {
      assert a + b == b;
    } else {
      assert (a + b)[0] == a[0] && (a + b)[1..] == a[1..] + b;
      HeadingsAppend(a[1..], b);
    }
  }

  lemma {:induction false} NoHeadingsInAnchors(links: seq<string>)
    ensures Headings(Anchors(links)) == []
    decreases |links|
  {
    if links != [] {
      assert Anchors(links)[1..] == Anchors(links[1..]);
      NoHeadingsInAnchors(links[1..]);
    }
  }

  lemma ActivityHeadings(activity: string, handlers: Handlers)
    ensures Headings(ActivityBlocks(activity, handlers)) == [activity]
  {
    var anchors := Anchors(ActivityLinks(handlers));
    HeadingsAppend([Heading(activity)], anchors);
    NoHeadingsInAnchors(ActivityLinks(handlers));
    assert [Heading(activity)][1..] == [];
    assert Headings([Heading(activity)]) == [activity] + [] == [activity];
    assert [activity] + [] == [activity];
  }

  /** Exactly one heading per activity, in the order the activities are given
      (an activity without linkable deep links still gets its heading). */
  lemma {:induction false} HeadingsInOrder(acts: DeepLinks)
    ensures Headings(Layout(acts)) == Keys(acts)
    decreases |acts|
  {
    if acts != [] {
      var init := acts[..|acts| - 1];
      var last := acts[|acts| - 1];
      HeadingsInOrder(init);
      LayoutLast(acts);
      HeadingsAppend(Layout(init), ActivityBlocks(last.0, last.1));
      ActivityHeadings(last.0, last.1);
      KeysLast(acts);
    }
  }

  lemma KeysLast(acts: DeepLinks)
    requires acts != []
    ensures Keys(acts) == Keys(acts[..|acts| - 1]) + [acts[|acts| - 1].0]
  {
  }

  /** The links of one activity are those of its deep links that mention `http`. */
  lemma AnchorInActivity(activity: string, handlers: Handlers, d: string)
    ensures Anchor(d) in ActivityBlocks(activity, handlers) <==> d in Keys(handlers) && Linkable(d)
  {
    var links := ActivityLinks(handlers);
    var blocks := ActivityBlocks(activity, handlers);
    if Anchor(d) in blocks {
      var k :| 0 <= k < |blocks| && blocks[k] == Anchor(d);
      assert Anchors(links)[k - 1] == Anchor(d);
      assert d in links;
    }
    if d in links {
      var k :| 0 <= k < |links| && links[k] == d;
      assert blocks[k + 1] == Anchor(d);
    }
  }

  /** `d` is a deep link of one of the activities. */
  ghost predicate Declared(acts: DeepLinks, d: string) {
    exists a :: 0 <= a < |acts| && d in Keys(acts[a].1)
  }

  lemma DeclaredLast(acts: DeepLinks, d: string)
    requires acts != []
    ensures Declared(acts, d) <==> Declared(acts[..|acts| - 1], d) || d in Keys(acts[|acts| - 1].1)
  {
    var init := acts[..|acts| - 1];
    if Declared(acts, d) {
      var a :| 0 <= a < |acts| && d in Keys(acts[a].1);
      if a < |init| {
        assert init[a] == acts[a];
      }
    }
    if Declared(init, d) {
      var a :| 0 <= a < |init| && d in Keys(init[a].1);
      assert acts[a] == init[a];
    }
  }

  /** A deep link has a link on the page exactly when it is a deep link of
      some activity and `http` occurs in it. */
  lemma {:induction false} AnchorIff(acts: DeepLinks, d: string)
    ensures Anchor(d) in Layout(acts) <==> Linkable(d) && Declared(acts, d)
    decreases |acts|
  {
    if acts != [] {
      var init := acts[..|acts| - 1];
      var last := acts[|acts| - 1];
      AnchorIff(init, d);
      AnchorInActivity(last.0, last.1, d);
      LayoutLast(acts);
      DeclaredLast(acts, d);
    }
  }

  /** Within one activity the links follow the sorted order of the deep
      links, and the blocks are the heading then those links. */
  lemma ActivityLinksSorted(activity: string, handlers: Handlers)
    ensures Sorted(ActivityLinks(handlers))
    ensures forall x :: x in ActivityLinks(handlers) <==> x in Keys(handlers) && Linkable(x)
    ensures ActivityBlocks(activity, handlers)[0] == Heading(activity)
    ensures forall k :: 0 < k < |ActivityBlocks(activity, handlers)| ==>
              ActivityBlocks(activity, handlers)[k] == Anchor(ActivityLinks(handlers)[k - 1])
  {
    FilterSorted(Linkable, Sort(Keys(handlers)));
  }

  /** The number of links among the blocks. */
  function AnchorCount(bs: seq<Block>): nat {
    if bs == [] then 0 else (if bs[0].Anchor? then 1 else 0) + AnchorCount(bs[1..])
  }

  lemma {:induction false} AnchorCountAppend(a: seq<Block>, b: seq<Block>)
    ensures AnchorCount(a + b) == AnchorCount(a) + AnchorCount(b)
    decreases |a|
  {
    if a == [] {
      assert a + b == b;
    } else {
      assert (a + b)[0] == a[0] && (a + b)[1..] == a[1..] + b;
      AnchorCountAppend(a[1..], b);
    }
  }

  lemma {:induction false} AnchorCountAnchors(links: seq<string>)
    ensures AnchorCount(Anchors(links)) == |links|
    decreases |links|
  {
    if links != [] {
      assert Anchors(links)[1..] == Anchors(links[1..]);
      AnchorCountAnchors(links[1..]);
    }
  }

  /** The number of linkable deep links, summed over the activities. */
  function LinkableTotal(acts: DeepLinks): nat {
    if acts == [] then 0
    else LinkableTotal(acts[..|acts| - 1]) + |Filter(Linkable, Keys(acts[|acts| - 1].1))|
  }

  /** The page has one link per linkable deep link of each activity. */
  lemma {:induction false} AnchorTotal(acts: DeepLinks)
    ensures AnchorCount(Layout(acts)) == LinkableTotal(acts)
    decreases |acts|
  {
    if acts != [] {
      var init := acts[..|acts| - 1];
      var last := acts[|acts| - 1];
      AnchorTotal(init);
      AnchorCountAppend(Layout(init), ActivityBlocks(last.0, last.1));
      AnchorCountAppend([Heading(last.0)], Anchors(ActivityLinks(last.1)));
      AnchorCountAnchors(ActivityLinks(last.1));
      FilterSortCount(Linkable, Keys(last.1));
    }
  }

  /** Every deep link the auditor checks (it starts with `http`) gets a link
      on the page. */
  lemma AuditedIsLinkable(d: string)
    ensures Audit.IsHttp(d) ==> Linkable(d)
  {
    if Audit.IsHttp(d) {
      assert d[..|Audit.Http|] == Audit.Http;
      assert OccursAt(d, Audit.Http, 0);
    }
  }

  /** The converse fails: the page tests for `http` anywhere, the auditor
      for a leading `http`, so a link with `http` later on is shown but not
      audited. */
  lemma LinkableNotAudited()
    ensures Linkable("app://http") && !Audit.IsHttp("app://http")
  {
    assert OccursAt("app://http", Audit.Http, 6);
    assert "app://http"[0] != Audit.Http[0];
  }
}
