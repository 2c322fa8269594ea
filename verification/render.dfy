/**
 * The page side: a document whose elements are found by id, the
 * changelog container whose children `renderChangelog` replaces, and the
 * load handler that fetches the versions and renders them.
 */
module Render {
  import opened Records
  import opened Markup
  import opened ReadBack
  import opened Fetch

  /** The id the renderer looks the container up by. */
  const ContainerId: string := "changelog-container"

  /** A child element: its tag name, its class and its `innerHTML`. */
  datatype Element = Element(tagName: string, className: string, innerHtml: string)

  /** The `div.version-block` rendered for one version. */
  function VersionBlock(v: VersionRecord): (e: Element)
    ensures e.tagName == "div" && e.className == "version-block"
  {
    Element("div", "version-block", BlockMarkup(v))
  }

  /** The children a render of `versions` leaves: one block per version, in order. */
  function VersionBlocks(versions: seq<VersionRecord>): (es: seq<Element>)
    ensures |es| == |versions|
    ensures forall i :: 0 <= i < |versions| ==> es[i] == VersionBlock(versions[i])
  {
    if versions == [] then [] else VersionBlocks(versions[..|versions| - 1]) + [VersionBlock(versions[|versions| - 1])]
  }

  /** Each rendered block whose record carries no markup reads back as
      that record, so the blocks show the versions one for one, in order. */
  lemma RenderedBlocksReadBack(versions: seq<VersionRecord>)
    ensures forall i :: 0 <= i < |versions| && PlainRecord(versions[i]) ==>
      ParseBlock(VersionBlocks(versions)[i].innerHtml)
        == Some(VersionRecord(versions[i].version, versions[i].date, ShownAll(versions[i].updates)))
  {
    forall i | 0 <= i < |versions| && PlainRecord(versions[i])
      ensures ParseBlock(VersionBlocks(versions)[i].innerHtml)
        == Some(VersionRecord(versions[i].version, versions[i].date, ShownAll(versions[i].updates)))
    {
      ReadBlock(versions[i]);
    }
  }

  /** An element whose children the script replaces. */
  class Container {
    var children: seq<Element>

    constructor (children: seq<Element>)
      ensures this.children == children
    {
      this.children := children;
    }

    /** `innerHTML = ''`. */
    method Clear()
      modifies this
      ensures children == []
    {
      children := [];
    }

    /** `appendChild(e)`. */
    method AppendChild(e: Element)
      modifies this
      ensures children == old(children) + [e]
    {
      children := children + [e];
    }
  }

  /** The host page, reduced to its elements that carry an id. */
  class Document {
    var elements: map<string, Container>

    constructor (elements: map<string, Container>)
      ensures this.elements == elements
    {
      this.elements := elements;
    }
  }

  /** The container the renderer writes into, if the page has one. */
  function Target(doc: Document): (t: set<Container>)
    reads doc
    ensures t == {} <==> ContainerId !in doc.elements
    ensures ContainerId in doc.elements ==> doc.elements[ContainerId] in t && |t| == 1
  {
    if ContainerId in doc.elements then {doc.elements[ContainerId]} else {}
  }

  /** `renderChangelog`: with the container present, empty it and append
      one block per version in order; without it, change nothing. */
  method RenderChangelog(doc: Document, versions: seq<VersionRecord>)
    modifies Target(doc)
    ensures doc.elements == old(doc.elements)
    ensures ContainerId in doc.elements ==> doc.elements[ContainerId].children == VersionBlocks(versions)
    ensures forall id | id in doc.elements && doc.elements[id] !in Target(doc) :: unchanged(doc.elements[id])
  {
    if ContainerId !in doc.elements {
      return;
    }
    var container := doc.elements[ContainerId];
    container.Clear();
    for i := 0 to |versions|
      invariant container.children == VersionBlocks(versions[..i])
    {
      container.AppendChild(VersionBlock(versions[i]));
      assert versions[..i + 1][..i] == versions[..i];
    }
    assert versions[..|versions|] == versions;
  }

  /** Rendering twice leaves what rendering once leaves. */
  method RenderChangelogTwice(doc: Document, versions: seq<VersionRecord>)
    modifies Target(doc)
    ensures doc.elements == old(doc.elements)
    ensures ContainerId in doc.elements ==> doc.elements[ContainerId].children == VersionBlocks(versions)
  {
    RenderChangelog(doc, versions);
    RenderChangelog(doc, versions);
  }

  /** The `DOMContentLoaded` handler: fetch every version, then render them.
      With N files named and K failing, N - K blocks are shown, in manifest
      order, and none when the manifest itself fails. */
  method OnContentLoaded(doc: Document, fetchIndex: Network<Manifest>, fetchRecord: Network<VersionRecord>)
    modifies Target(doc)
    ensures doc.elements == old(doc.elements)
    ensures ContainerId in doc.elements ==>
      doc.elements[ContainerId].children == VersionBlocks(FetchAllVersions(fetchIndex, fetchRecord))
    ensures ContainerId in doc.elements ==>
      |doc.elements[ContainerId].children| == |FetchVersionsIndex(fetchIndex)|
        - FailedCount(fetchRecord, FetchVersionsIndex(fetchIndex))
    ensures ContainerId in doc.elements && !Delivered(fetchIndex(IndexPath)) ==>
      doc.elements[ContainerId].children == []
  {
    var versions := FetchAllVersions(fetchIndex, fetchRecord);
    FetchAllVersionsCount(fetchIndex, fetchRecord);
    RenderChangelog(doc, versions);
  }
}
