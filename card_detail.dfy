/** The detail page: the card whose id is in the route, and the Markdown
    text its copy button puts on the clipboard. */
module CardDetail {
  import opened Text
  import opened Cards
  import opened Storage

  /** The position of the first card of the list with the given id, or the
      length of the list when there is none. */
  function FirstMatch(cards: seq<Card>, id: string): (i: nat)
    ensures i <= |cards|
    ensures i < |cards| ==> cards[i].id == id
    ensures forall j :: 0 <= j < i ==> cards[j].id != id
  {
    if cards == [] then 0
    else if cards[0].id == id then 0
    else 1 + FirstMatch(cards[1..], id)
  }

  /** `cards.find(c => c.id === id)`: the first card with that id, or
      `None`, which sends the page to its not-found view. */
  function FindCard(cards: seq<Card>, id: string): (r: Option<Card>)
    ensures r.None? <==> forall j :: 0 <= j < |cards| ==> cards[j].id != id
    ensures r.Some? ==> r.value.id == id
    ensures r.Some? ==> exists i :: 0 <= i < |cards| && r.value == cards[i]
                          && forall j :: 0 <= j < i ==> cards[j].id != id
  {
    var i := FirstMatch(cards, id);
    if i < |cards| then Some(cards[i]) else None
  }

  /** Looking a card up in a full listing of the store finds exactly what
      the store holds under that id. */
  lemma FindInListing(xs: seq<Card>, m: Records, id: string)
    requires Enumerates(xs, m)
    ensures FindCard(xs, id) == Lookup(m, id)
  {
    if id in m {
      assert id in IdsOf(xs);
      var j :| 0 <= j < |xs| && xs[j].id == id;
      var i := FirstMatch(xs, id);
      assert Lookup(m, xs[i].id) == Some(xs[i]);
    } else {
      forall j | 0 <= j < |xs| ensures xs[j].id != id {
        assert Lookup(m, xs[j].id) == Some(xs[j]);
      }
    }
  }

  /** The placeholder for an empty basic-information field. */
  const Unknown: string := "未知"

  /** The placeholder for an empty free-text section. */
  const NoRecord: string := "尚无记录"

  /** `value || fallback` on strings: the fallback replaces only the empty
      string. */
  function OrDefault(value: string, fallback: string): (r: string)
    ensures value != [] ==> r == value
    ensures value == [] ==> r == fallback
    ensures fallback != [] ==> r != []
  {
    if value == [] then fallback else value
  }

  /** One line of the basic-information list. */
  function Field(caption: string, value: string): string {
    "\n- **" + caption + "**: " + OrDefault(value, Unknown)
  }

  /** The six basic-information lines, in their fixed order. */
  function BasicLines(c: Card): string {
    Field("性别", c.gender) + Field("生日", c.birthday) + Field("身高", c.height)
    + Field("体重", c.weight) + Field("瞳色", c.eyeColor) + Field("发型", c.hairStyle)
  }

  /** The title line. */
  function Title(c: Card): string {
    "# 角色档案: " + c.name
  }

  /** The text from the end of the title up to and including the last
      section heading. */
  function Sections(c: Card): string {
    "\n\n## 基础信息" + BasicLines(c)
    + "\n\n## 性格特点\n" + OrDefault(c.personality, NoRecord)
    + "\n\n## 兴趣爱好\n" + OrDefault(c.hobbies, NoRecord)
    + "\n\n## 其他备注"
  }

  /** The template literal before `.trim()`: a leading line break, the
      title, the sections, the notes and the closing line's indentation. */
  function Template(c: Card): string {
    "\n" + (Title(c) + Sections(c)) + ("\n" + OrDefault(c.others, NoRecord)) + "\n    "
  }

  /** `handleCopyMarkdown`'s text. */
  function CardMarkdown(c: Card): (md: string)
    ensures IsTrimmed(md)
  {
    Trim(Template(c))
  }

  /** Trimming removes only the template's leading line break and the
      whitespace at the end of the notes: the title and every section come
      through verbatim and in order, and notes that are all whitespace
      vanish behind their heading. */
  lemma MarkdownLayout(c: Card)
    ensures CardMarkdown(c) == Title(c) + Sections(c) + NotesTail(OrDefault(c.others, NoRecord))
  {
    var head := Title(c) + Sections(c);
    HeadEnds(c);
    LeadingBreak();
    ClosingIndent();
    TrimAround("\n", head, "\n", OrDefault(c.others, NoRecord), "\n    ");
  }

  /** What remains of `"\n" + notes` once trailing whitespace is gone. */
  function NotesTail(notes: string): string {
    if AllWhitespace(notes) then [] else "\n" + TrimEnd(notes)
  }

  /** The Markdown text opens with the title line, `# 角色档案: ` and the
      card's name. */
  lemma MarkdownStartsWithTitle(c: Card)
    ensures |Title(c)| <= |CardMarkdown(c)|
    ensures CardMarkdown(c)[..|Title(c)|] == Title(c)
  {
    MarkdownLayout(c);
    var rest := NotesTail(OrDefault(c.others, NoRecord));
    Associative(Title(c), Sections(c), rest);
    PrefixOfAppend(Title(c), Sections(c) + rest);
  }

  /** Unless the notes are all whitespace, the text ends with them, minus
      their trailing whitespace. */
  lemma MarkdownEndsWithNotes(c: Card)
    requires !AllWhitespace(OrDefault(c.others, NoRecord))
    ensures var notes := TrimEnd(OrDefault(c.others, NoRecord));
      |notes| <= |CardMarkdown(c)| && CardMarkdown(c)[|CardMarkdown(c)| - |notes|..] == notes
  {
    MarkdownLayout(c);
    EndsWithNotesTail(CardMarkdown(c), Title(c) + Sections(c), OrDefault(c.others, NoRecord));
  }

  lemma EndsWithNotesTail(md: string, head: string, notes: string)
    requires md == head + NotesTail(notes) && !AllWhitespace(notes)
    ensures |TrimEnd(notes)| <= |md| && md[|md| - |TrimEnd(notes)|..] == TrimEnd(notes)
  {
    EndsWithLast(head, "\n", TrimEnd(notes));
  }

  lemma EndsWithLast(a: string, b: string, z: string)
    ensures |z| <= |a + (b + z)|
    ensures (a + (b + z))[|a + (b + z)| - |z|..] == z
  {
    Associative(a, b, z);
    SuffixOfAppend(a + b, z);
  }

  lemma PrefixOfAppend(a: string, b: string)
    ensures (a + b)[..|a|] == a
  {
  }

  lemma SuffixOfAppend(a: string, b: string)
    ensures (a + b)[|a|..] == b
  {
  }

  lemma HeadEnds(c: Card)
    ensures Title(c) + Sections(c) != []
    ensures !IsWhitespace((Title(c) + Sections(c))[0])
    ensures !IsWhitespace((Title(c) + Sections(c))[|Title(c) + Sections(c)| - 1])
  {
    var t, s := Title(c), Sections(c);
    assert t[0] == '#';
    assert (t + s)[0] == t[0];
    assert s[|s| - 1] == '注';
    assert (t + s)[|t + s| - 1] == s[|s| - 1];
  }

  lemma LeadingBreak()
    ensures AllWhitespace("\n")
  {
  }

  lemma ClosingIndent()
    ensures AllWhitespace("\n    ")
  {
  }

  /** `trim` of whitespace, a text with non-whitespace ends, whitespace,
      further text and whitespace: the first text, then the rest with its
      trailing whitespace removed. */
  lemma TrimAround(lead: string, head: string, gap: string, tail: string, trail: string)
    requires AllWhitespace(lead) && AllWhitespace(gap) && AllWhitespace(trail)
    requires head != [] && gap != []
    requires !IsWhitespace(head[0]) && !IsWhitespace(head[|head| - 1])
    ensures Trim(lead + head + (gap + tail) + trail)
      == head + (if AllWhitespace(tail) then [] else gap + TrimEnd(tail))
  {
    var rest := (gap + tail) + trail;
    Associative(lead + head, gap + tail, trail);
    Associative(lead, head, rest);
    TrimStartOfWhitespacePrefix(lead, head + rest);
    TrimStartStops(head, rest);
    TrimEndStops(head, rest);
    TrimEndOfWhitespaceSuffix(gap + tail, trail);
    TrimEndAfterWhitespace(gap, tail);
  }

  /** Trailing trimming of whitespace followed by text: nothing when the
      text is all whitespace, otherwise the whitespace and the text's
      trimmed form. */
  lemma TrimEndAfterWhitespace(w: string, s: string)
    requires AllWhitespace(w) && w != []
    ensures TrimEnd(w + s) == if AllWhitespace(s) then [] else w + TrimEnd(s)
  {
    if AllWhitespace(s) {
      WhitespaceTrimsEndAway(w + s);
    } else {
      var u := TrimEnd(s);
      SplitAt(s, |u|);
      EmptyTrimEnd(s);
      Associative(w, u, s[|u|..]);
      TrimEndOfWhitespaceSuffix(w + u, s[|u|..]);
      TrimEndStops(w + u, []);
      AppendEmpty(w + u);
    }
  }

  /** Text that `trimEnd` empties is all whitespace. */
  lemma EmptyTrimEnd(s: string)
    ensures TrimEnd(s) == [] ==> AllWhitespace(s)
  {
    assert s[0..] == s;
  }

  lemma AppendEmpty(a: string)
    ensures a + [] == a
  {
  }

}
