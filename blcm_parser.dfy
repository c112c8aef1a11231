/**
 * The BLCMM description walk (`file_parser/blcm_parser.cpp`) over the
 * document the BLCMM preprocessor and the XML reader produce: the root
 * category's leading comments form the description, unless a description
 * category takes over.
 */
module BlcmParser {
  import opened Wrappers
  import opened ParserUtil
  import opened ParseResults

  /** An XML element: its name, its `name` attribute ("" when absent), its text and its children. */
  datatype XmlNode = XmlNode(name: string, nameAttr: string, text: string, children: seq<XmlNode>)

  /**
   * What the walk reads of a BLCMM document: the `/BLCMM/@v` attribute, the
   * `/BLCMM/body/category` element if there is one, and the
   * `/BLCMM/head/type/@name` attribute ("" when absent).
   */
  datatype BlcmmDoc = BlcmmDoc(version: string, root: Option<XmlNode>, typeName: string)

  const VERSION_ERROR: string := "Unknown BLCMM file version"
  const ROOT_ERROR: string := "Couldn't find root category"

  /** One effect of the walk on the comments: add a comment, or discard all of them. */
  datatype WalkStep = AddText(text: string) | DiscardAll

  function Walked(c: Comments, steps: seq<WalkStep>): Comments
    decreases |steps|
  {
    if steps == [] then c
    else
      var next := match steps[0]
        case AddText(t) => WithCommentBuffer(c, t)
        case DiscardAll => NO_COMMENTS;
      Walked(next, steps[1..])
  }

  predicate IsComment(n: XmlNode)
  {
    CiEquals(n.name, "comment")
  }

  /** A description category's comments: its leading `comment` children, up to the first other child or command. */
  function CategoryWalk(children: seq<XmlNode>): (steps: seq<WalkStep>)
    ensures forall i :: 0 <= i < |steps| ==> steps[i].AddText? && !IsCommand(steps[i].text, false)
    ensures |steps| <= |children|
  {
    if children == [] || !IsComment(children[0]) || IsCommand(children[0].text, false) then []
    else [AddText(children[0].text)] + CategoryWalk(children[1..])
  }

  /**
   * `extract_description` over the root's children: leading `comment`
   * children are added until one holds a command; a `category` child whose
   * name contains "description" discards them, adds its own leading comments
   * and ends the walk; any other child ends it.
   */
  function RootWalk(children: seq<XmlNode>): (steps: seq<WalkStep>)
    ensures forall i :: 0 <= i < |steps| && steps[i].AddText? ==> !IsCommand(steps[i].text, false)
  {
    if children == [] then []
    else
      var child := children[0];
      if IsComment(child) then
        if IsCommand(child.text, false) then [] else [AddText(child.text)] + RootWalk(children[1..])
      else if CiEquals(child.name, "category") && CiContains(child.nameAttr, "description") then
        [DiscardAll] + CategoryWalk(child.children)
      else []
  }

  /** The walk discards at most once, and only right before the description category's comments. */
  lemma {:induction false} DiscardIsLast(children: seq<XmlNode>)
    ensures forall i :: 0 <= i < |RootWalk(children)| && RootWalk(children)[i].DiscardAll? ==>
      forall j :: i < j < |RootWalk(children)| ==> RootWalk(children)[j].AddText?
  {
    if children != [] && IsComment(children[0]) && !IsCommand(children[0].text, false) {
      DiscardIsLast(children[1..]);
      var rest := RootWalk(children[1..]);
      assert RootWalk(children) == [AddText(children[0].text)] + rest;
    }
  }

  lemma {:induction false} WalkedConcat(c: Comments, a: seq<WalkStep>, b: seq<WalkStep>)
    ensures Walked(c, a + b) == Walked(Walked(c, a), b)
    decreases |a|
  {
    if a == [] {
      assert a + b == b;
    } else {
      assert (a + b)[0] == a[0] && (a + b)[1..] == a[1..] + b;
      var next := match a[0]
        case AddText(t) => WithCommentBuffer(c, t)
        case DiscardAll => NO_COMMENTS;
      WalkedConcat(next, a[1..], b);
    }
  }

  /** Discarding forgets everything added before: only the steps after the discard matter. */
  lemma {:induction false} DiscardForgetsEarlier(c: Comments, before: seq<WalkStep>, after: seq<WalkStep>)
    ensures Walked(c, before + [DiscardAll] + after) == Walked(NO_COMMENTS, after)
  {
    WalkedConcat(c, before + [DiscardAll], after);
    WalkedConcat(c, before, [DiscardAll]);
  }

  /** Adds a description category's leading comments. */
  method AddCategoryComments(children: seq<XmlNode>, pr: ParseResult)
    modifies pr
    ensures pr.Contents() == Walked(old(pr.Contents()), CategoryWalk(children))
    ensures pr.game == old(pr.game) && pr.sparkServiceIdx == old(pr.sparkServiceIdx)
  {
    var i := 0;
    while i < |children|
      invariant i <= |children|
      invariant Walked(pr.Contents(), CategoryWalk(children[i..])) == Walked(old(pr.Contents()), CategoryWalk(children))
      invariant pr.game == old(pr.game) && pr.sparkServiceIdx == old(pr.sparkServiceIdx)
    {
      var grandchild := children[i];
      if IsComment(grandchild) {
        if IsCommand(grandchild.text, false) {
          break;
        }
        assert children[i..][1..] == children[i + 1..];
        pr.AddCommentBuffer(grandchild.text);
        i := i + 1;
        continue;
      }
      break;
    }
  }

  /**
   * `extract_description`: a version other than "1" and a missing root
   * category are errors; otherwise the comments become those of the walk.
   */
  method ExtractDescription(doc: BlcmmDoc, pr: ParseResult) returns (err: Option<string>)
    modifies pr
    ensures doc.version != "1" ==> err == Some(VERSION_ERROR) && pr.Contents() == old(pr.Contents())
    ensures doc.version == "1" && doc.root.None? ==> err == Some(ROOT_ERROR) && pr.Contents() == old(pr.Contents())
    ensures doc.version == "1" && doc.root.Some? ==>
      err == None && pr.Contents() == Walked(old(pr.Contents()), RootWalk(doc.root.value.children))
    ensures pr.game == old(pr.game) && pr.sparkServiceIdx == old(pr.sparkServiceIdx)
  {
    if doc.version != "1" {
      return Some(VERSION_ERROR);
    }
    if doc.root.None? {
      return Some(ROOT_ERROR);
    }
    var children := doc.root.value.children;
    var i := 0;
    while i < |children|
      invariant i <= |children|
      invariant Walked(pr.Contents(), RootWalk(children[i..])) == Walked(old(pr.Contents()), RootWalk(children))
      invariant pr.game == old(pr.game) && pr.sparkServiceIdx == old(pr.sparkServiceIdx)
    {
      var child := children[i];
      if IsComment(child) {
        if IsCommand(child.text, false) {
          break;
        }
        assert children[i..][1..] == children[i + 1..];
        pr.AddCommentBuffer(child.text);
        i := i + 1;
        continue;
      }
      if CiEquals(child.name, "category") {
        if !CiContains(child.nameAttr, "description") {
          break;
        }
        pr.DiscardComments();
        AddCategoryComments(child.children, pr);
      }
      break;
    }
    return None;
  }

  /**
   * `parse_blcmm_file`, given what the preprocessor and the XML reader made
   * of the stream (an error message when they failed): the game is set only
   * when the type name is not empty, before the walk, so it is set even when
   * the walk then fails.
   */
  method ParseBlcmmFile(doc: Result<BlcmmDoc, string>, pr: ParseResult) returns (err: Option<string>)
    modifies pr
    ensures doc.Err? ==> err == Some(doc.error) && unchanged(pr)
    ensures doc.Ok? && doc.value.typeName != "" ==> pr.game == Some(doc.value.typeName)
    ensures doc.Ok? && doc.value.typeName == "" ==> pr.game == old(pr.game)
    ensures doc.Ok? && doc.value.version == "1" && doc.value.root.Some? ==>
      err == None && pr.Contents() == Walked(old(pr.Contents()), RootWalk(doc.value.root.value.children))
    ensures doc.Ok? && (doc.value.version != "1" || doc.value.root.None?) ==> err.Some?
    ensures pr.sparkServiceIdx == old(pr.sparkServiceIdx)
  {
    if doc.Err? {
      return Some(doc.error);
    }
    if doc.value.typeName != "" {
      pr.game := Some(doc.value.typeName);
    }
    err := ExtractDescription(doc.value, pr);
  }
}
