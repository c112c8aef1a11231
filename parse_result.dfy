/**
 * The result the mod-file parser fills in (`file_parser/parse_result.cpp`):
 * BLIMP tags (`@tag value` comments) collected per lower-cased tag, the
 * untagged description lines, the recommended game and the spark service
 * index. Comments arrive either as a `std::string` or as a NUL-terminated
 * buffer; in this model both are character sequences, and a buffer is read
 * up to its first NUL.
 */
module ParseResults {
  import opened Wrappers
  import opened Strings

  /** The two comment fields: `blimp_tags` (tag to its values, in arrival order) and `untagged_lines`. */
  datatype Comments = Comments(tags: map<string, seq<string>>, untagged: seq<string>)

  const NO_COMMENTS: Comments := Comments(map[], [])

  /** `find_first_of(c)`: the first index holding `c`, `None` for `npos`. */
  function FindFirst(s: string, c: char): (r: Option<nat>)
    ensures r.Some? ==> r.value < |s| && s[r.value] == c && c !in s[..r.value]
    ensures r.None? ==> c !in s
  {
    if s == [] then None
    else if s[0] == c then Some(0)
    else match FindFirst(s[1..], c)
      case None => None
      case Some(i) => assert s[..i + 1] == [s[0]] + s[1..][..i]; Some(i + 1)
  }

  /** What a C string reader sees in a buffer: everything before the first NUL. */
  function UpToNul(s: string): (r: string)
    ensures '\0' !in r
    ensures r == s ==> '\0' !in s
    ensures '\0' !in s ==> r == s
  {
    match FindFirst(s, '\0')
    case None => s
    case Some(i) => s[..i]
  }

  /** The tag: the text before the first space, or all of it. */
  function TagPart(comment: string, space: Option<nat>): string
  {
    if space.Some? && space.value <= |comment| then comment[..space.value] else comment
  }

  /** The value: the text after the first space, or "" when there is none. */
  function ValuePart(comment: string, space: Option<nat>): string
  {
    if space.Some? && space.value < |comment| then comment[space.value + 1..] else ""
  }

  /** Tag and value put back together give the comment again, and the tag holds no space. */
  lemma {:induction false} TagSplitRoundTrip(comment: string)
    ensures ' ' !in TagPart(comment, FindFirst(comment, ' '))
    ensures FindFirst(comment, ' ').Some? ==>
      comment == TagPart(comment, FindFirst(comment, ' ')) + " " + ValuePart(comment, FindFirst(comment, ' '))
    ensures FindFirst(comment, ' ').None? ==>
      TagPart(comment, FindFirst(comment, ' ')) == comment && ValuePart(comment, FindFirst(comment, ' ')) == ""
  {
    var space := FindFirst(comment, ' ');
    if space.Some? {
      var k := space.value;
      assert comment == comment[..k] + [comment[k]] + comment[k + 1..];
    }
  }

  /** The values stored under `tag`, none when the tag is new. */
  function TagValues(tags: map<string, seq<string>>, tag: string): seq<string>
  {
    if tag in tags then tags[tag] else []
  }

  /** The values of `tag` with one more at the end, the list created on first use. */
  function Appended(tags: map<string, seq<string>>, tag: string, value: string): (r: map<string, seq<string>>)
    ensures r.Keys == tags.Keys + {tag}
    ensures r[tag] == TagValues(tags, tag) + [value]
    ensures forall t :: t in tags && t != tag ==> r[t] == tags[t]
  {
    tags[tag := TagValues(tags, tag) + [value]]
  }

  /**
   * `add_comment(const std::string&)`: an empty comment is ignored; one not
   * starting with '@' is an untagged line, kept whole; one whose first space
   * is right after the '@' is malformed and dropped; otherwise the lower-cased
   * text before the first space is the tag and the text after it, read as a C
   * string, is appended to the tag's values.
   */
  function WithComment(c: Comments, comment: string): (r: Comments)
    ensures comment == [] ==> r == c
    ensures comment != [] && comment[0] != '@' ==> r == c.(untagged := c.untagged + [comment])
    ensures r.untagged == c.untagged || r.untagged == c.untagged + [comment]
  {
    if comment == [] then c
    else if comment[0] != '@' then c.(untagged := c.untagged + [comment])
    else
      var space := FindFirst(comment, ' ');
      if space == Some(1) then c
      else
        var tag := Lower(TagPart(comment, space));
        var value := UpToNul(ValuePart(comment, space));
        c.(tags := Appended(c.tags, tag, value))
  }

  /** `add_comment(const char*)`: the same steps on the text of a NUL-terminated buffer. */
  function WithCommentBuffer(c: Comments, buffer: string): (r: Comments)
  {
    var comment := UpToNul(buffer);
    if comment == [] then c
    else if comment[0] != '@' then c.(untagged := c.untagged + [comment])
    else
      var space := FindFirst(comment, ' ');
      if space == Some(1) then c
      else
        var tag := Lower(TagPart(comment, space));
        var value := UpToNul(ValuePart(comment, space));
        c.(tags := Appended(c.tags, tag, value))
  }

  /** The two overloads agree: a buffer is added exactly as the string it holds up to its first NUL. */
  lemma {:induction false} OverloadsAgree(c: Comments, buffer: string)
    ensures WithCommentBuffer(c, buffer) == WithComment(c, UpToNul(buffer))
    ensures '\0' !in buffer ==> WithCommentBuffer(c, buffer) == WithComment(c, buffer)
  {
  }

  /** Whether a tagged comment is kept: it starts with '@' and its first space is not at index 1. */
  predicate IsWellFormedTag(comment: string)
  {
    comment != [] && comment[0] == '@' && FindFirst(comment, ' ') != Some(1)
  }

  /**
   * A well-formed tagged comment adds its value at the end of its tag's list
   * and changes nothing else; every other tagged comment changes nothing.
   */
  lemma {:induction false} TaggedCommentAppends(c: Comments, comment: string)
    requires comment != [] && comment[0] == '@'
    ensures IsWellFormedTag(comment) ==>
      var tag := Lower(TagPart(comment, FindFirst(comment, ' ')));
      && WithComment(c, comment).untagged == c.untagged
      && WithComment(c, comment).tags.Keys == c.tags.Keys + {tag}
      && WithComment(c, comment).tags[tag] == TagValues(c.tags, tag) + [UpToNul(ValuePart(comment, FindFirst(comment, ' ')))]
    ensures !IsWellFormedTag(comment) ==> WithComment(c, comment) == c
  {
  }

  /** Adding a comment never loses a value: every earlier list is a prefix of the new one. */
  lemma {:induction false} ValuesNeverLost(c: Comments, comment: string)
    ensures forall t :: t in c.tags ==> t in WithComment(c, comment).tags && c.tags[t] <= WithComment(c, comment).tags[t]
    ensures forall t :: t in WithComment(c, comment).tags ==> WithComment(c, comment).tags[t] != [] || t in c.tags
  {
  }

  /** Every tag has at least one value: a tag's list is created with its first value. */
  predicate TagListsNonEmpty(c: Comments)
  {
    forall t :: t in c.tags ==> c.tags[t] != []
  }

  /** Neither overload ever leaves a tag with no value, so `[0]` of a tag's list is always defined. */
  lemma {:induction false} TagListsStayNonEmpty(c: Comments, arg: CommentArg)
    requires TagListsNonEmpty(c)
    ensures TagListsNonEmpty(WithArg(c, arg))
  {
    match arg
    case StdString(s) => ValuesNeverLost(c, s);
    case Buffer(b) => ValuesNeverLost(c, UpToNul(b));
  }

  /** How a parser passes a comment on: as a `std::string` or as a pointer into a NUL-terminated buffer. */
  datatype CommentArg = StdString(text: string) | Buffer(buffer: string)

  function WithArg(c: Comments, arg: CommentArg): Comments
  {
    match arg
    case StdString(s) => WithComment(c, s)
    case Buffer(b) => WithCommentBuffer(c, b)
  }

  /** The comments after adding each argument in turn. */
  function WithArgs(c: Comments, args: seq<CommentArg>): Comments
    decreases |args|
  {
    if args == [] then c else WithArgs(WithArg(c, args[0]), args[1..])
  }

  /** Any run of comments keeps every tag's list non-empty. */
  lemma {:induction false} TagListsNonEmptyAfterArgs(c: Comments, args: seq<CommentArg>)
    requires TagListsNonEmpty(c)
    ensures TagListsNonEmpty(WithArgs(c, args))
    decreases |args|
  {
    if args != [] {
      TagListsStayNonEmpty(c, args[0]);
      TagListsNonEmptyAfterArgs(WithArg(c, args[0]), args[1..]);
    }
  }

  /** Adding two runs of comments is adding their concatenation. */
  lemma {:induction false} WithArgsConcat(c: Comments, a: seq<CommentArg>, b: seq<CommentArg>)
    ensures WithArgs(c, a + b) == WithArgs(WithArgs(c, a), b)
    decreases |a|
  {
    if a == [] {
      assert a + b == b;
    } else {
      assert (a + b)[0] == a[0] && (a + b)[1..] == a[1..] + b;
      WithArgsConcat(WithArg(c, a[0]), a[1..], b);
    }
  }

  /** Untagged lines arrive in order: plain comments with no '@' and no NUL end up as the untagged lines, unchanged. */
  lemma {:induction false} PlainLinesInOrder(c: Comments, lines: seq<string>)
    requires forall i :: 0 <= i < |lines| ==> lines[i] != [] && lines[i][0] != '@'
    ensures WithArgs(c, seq(|lines|, i requires 0 <= i < |lines| => StdString(lines[i]))) == c.(untagged := c.untagged + lines)
    decreases |lines|
  {
    var args := seq(|lines|, i requires 0 <= i < |lines| => StdString(lines[i]));
    if lines != [] {
      var c' := WithComment(c, lines[0]);
      assert args[1..] == seq(|lines[1..]|, i requires 0 <= i < |lines[1..]| => StdString(lines[1..][i]));
      PlainLinesInOrder(c', lines[1..]);
      assert c.untagged + [lines[0]] + lines[1..] == c.untagged + lines;
    }
  }

  /** `ParseResult`: the fields the parsers fill in. */
  class ParseResult {
    var blimpTags: map<string, seq<string>>
    var untaggedLines: seq<string>
    var game: Option<string>
    var sparkServiceIdx: Option<nat>

    constructor ()
      ensures blimpTags == map[] && untaggedLines == [] && game == None && sparkServiceIdx == None
    {
      blimpTags := map[];
      untaggedLines := [];
      game := None;
      sparkServiceIdx := None;
    }

    function Contents(): Comments
      reads this
    {
      Comments(blimpTags, untaggedLines)
    }

    /** `discard_comments`: both comment fields emptied, the game and the index kept. */
    method DiscardComments()
      modifies this
      ensures Contents() == NO_COMMENTS
      ensures game == old(game) && sparkServiceIdx == old(sparkServiceIdx)
    {
      blimpTags := map[];
      untaggedLines := [];
    }

    /** `add_comment(const std::string&)`. */
    method AddComment(comment: string)
      modifies this
      ensures Contents() == WithComment(old(Contents()), comment)
      ensures game == old(game) && sparkServiceIdx == old(sparkServiceIdx)
    {
      if comment == [] {
        return;
      }
      if comment[0] != '@' {
        untaggedLines := untaggedLines + [comment];
        return;
      }
      var space := FindFirst(comment, ' ');
      if space == Some(1) {
        return;
      }
      var tag := Lower(TagPart(comment, space));
      var value := UpToNul(ValuePart(comment, space));
      if tag !in blimpTags {
        blimpTags := blimpTags[tag := []];
      }
      blimpTags := blimpTags[tag := blimpTags[tag] + [value]];
    }

    /** `add_comment(const char*)`. */
    method AddCommentBuffer(buffer: string)
      modifies this
      ensures Contents() == WithCommentBuffer(old(Contents()), buffer)
      ensures game == old(game) && sparkServiceIdx == old(sparkServiceIdx)
    {
      var comment := UpToNul(buffer);
      if comment == [] {
        return;
      }
      if comment[0] != '@' {
        untaggedLines := untaggedLines + [comment];
        return;
      }
      var space := FindFirst(comment, ' ');
      if space == Some(1) {
        return;
      }
      var tag := Lower(TagPart(comment, space));
      var value := UpToNul(ValuePart(comment, space));
      if tag !in blimpTags {
        blimpTags := blimpTags[tag := []];
      }
      blimpTags := blimpTags[tag := blimpTags[tag] + [value]];
    }

    /** Passes one comment argument to the matching overload. */
    method AddArg(arg: CommentArg)
      modifies this
      ensures Contents() == WithArg(old(Contents()), arg)
      ensures game == old(game) && sparkServiceIdx == old(sparkServiceIdx)
    {
      match arg
      case StdString(s) => AddComment(s);
      case Buffer(b) => AddCommentBuffer(b);
    }
  }
}
