/** The logic of the create/edit page: reading the comma-separated tag
    input, the quick-add buttons, the list of tag suggestions, and the
    record that Save writes. */
module EditForm {
  import opened Text
  import opened Cards
  import opened Storage

  /** The two separators the tag input accepts: ASCII `,` and the
      full-width comma U+FF0C. */
  predicate IsSeparator(c: char) {
    c == ',' || c == '\U{FF0C}'
  }

  predicate SeparatorFree(s: string) {
    forall i :: 0 <= i < |s| ==> !IsSeparator(s[i])
  }

  /** `s.split(/[，,]/)`: the pieces between separators, empty ones
      included; there is always at least one piece. */
  function Split(s: string): (r: seq<string>)
    ensures |r| >= 1
  {
    if s == [] then [[]]
    else
      var rest := Split(s[1..]);
      if IsSeparator(s[0]) then [[]] + rest
      else [[s[0]] + rest[0]] + rest[1..]
  }

  /** One piece after `.map(t => t.trim()).filter(t => t !== '')`. */
  function Kept(p: string): (r: seq<string>)
    ensures |r| <= 1
  {
    if Trim(p) == [] then [] else [Trim(p)]
  }

  /** `.map(t => t.trim()).filter(t => t !== '')`. */
  function TrimNonEmpty(ps: seq<string>): seq<string> {
    if ps == [] then [] else Kept(ps[0]) + TrimNonEmpty(ps[1..])
  }

  /** The tags a tag input stands for. */
  function ParseTags(input: string): seq<string> {
    TrimNonEmpty(Split(input))
  }

  /** A tag as the parser produces it: non-empty, trimmed, separator-free. */
  predicate IsCleanTag(t: string) {
    t != [] && IsTrimmed(t) && SeparatorFree(t)
  }

  /** No piece of a split contains a separator. */
  lemma {:induction false} SplitPiecesSeparatorFree(s: string)
    ensures forall i :: 0 <= i < |Split(s)| ==> SeparatorFree(Split(s)[i])
  {
    if s != [] {
      SplitPiecesSeparatorFree(s[1..]);
    }
  }

  lemma {:induction false} TrimNonEmptyClean(ps: seq<string>)
    requires forall i :: 0 <= i < |ps| ==> SeparatorFree(ps[i])
    ensures forall i :: 0 <= i < |TrimNonEmpty(ps)| ==> IsCleanTag(TrimNonEmpty(ps)[i])
  {
    if ps != [] {
      TrimNonEmptyClean(ps[1..]);
      KeptClean(ps[0]);
      CleanAppend(Kept(ps[0]), TrimNonEmpty(ps[1..]));
    }
  }

  lemma KeptClean(p: string)
    requires SeparatorFree(p)
    ensures forall i :: 0 <= i < |Kept(p)| ==> IsCleanTag(Kept(p)[i])
  {
    var t := Trim(p);
    TrimFacts(p);
    assert SeparatorFree(t) by {
      forall i | 0 <= i < |t| ensures !IsSeparator(t[i]) {
        assert t[i] in t;
      }
    }
  }

  lemma CleanAppend(a: seq<string>, b: seq<string>)
    requires forall i :: 0 <= i < |a| ==> IsCleanTag(a[i])
    requires forall i :: 0 <= i < |b| ==> IsCleanTag(b[i])
    ensures forall i :: 0 <= i < |a + b| ==> IsCleanTag((a + b)[i])
  {
  }

  /** Every parsed tag is non-empty, has no surrounding whitespace and
      contains neither separator. */
  lemma ParsedTagsAreClean(input: string)
    ensures forall i :: 0 <= i < |ParseTags(input)| ==> IsCleanTag(ParseTags(input)[i])
  {
    SplitPiecesSeparatorFree(input);
    TrimNonEmptyClean(Split(input));
  }

  lemma {:induction false} TrimNonEmptyAppend(a: seq<string>, b: seq<string>)
    ensures TrimNonEmpty(a + b) == TrimNonEmpty(a) + TrimNonEmpty(b)
  {
    if a == [] {
      assert a + b == b;
    } else {
      assert (a + b)[0] == a[0];
      assert (a + b)[1..] == a[1..] + b;
      TrimNonEmptyAppend(a[1..], b);
      calc {
        TrimNonEmpty(a + b);
        Kept(a[0]) + TrimNonEmpty(a[1..] + b);
        Kept(a[0]) + (TrimNonEmpty(a[1..]) + TrimNonEmpty(b));
        (Kept(a[0]) + TrimNonEmpty(a[1..])) + TrimNonEmpty(b);
      }
    }
  }

  lemma {:induction false} SplitSeparatorFree(s: string)
    requires SeparatorFree(s)
    ensures Split(s) == [s]
  {
    if s != [] {
      assert SeparatorFree(s[1..]);
      SplitSeparatorFree(s[1..]);
      assert s == [s[0]] + s[1..];
    }
  }

  /** A separator ends one run of pieces and starts the next. */
  lemma {:induction false} SplitAtSeparator(a: string, c: char, b: string)
    requires IsSeparator(c)
    ensures Split(a + [c] + b) == Split(a) + Split(b)
  {
    if a == [] {
      assert a + [c] + b == [c] + b;
      assert ([c] + b)[1..] == b;
    } else {
      assert (a + [c] + b)[1..] == a[1..] + [c] + b;
      SplitAtSeparator(a[1..], c, b);
    }
  }

  /** Separator-free text in front of the input joins its first piece. */
  lemma {:induction false} SplitWithPrefix(w: string, s: string)
    requires SeparatorFree(w)
    ensures Split(w + s) == [w + Split(s)[0]] + Split(s)[1..]
  {
    if w != [] {
      assert (w + s)[0] == w[0] && !IsSeparator(w[0]);
      assert (w + s)[1..] == w[1..] + s;
      assert SeparatorFree(w[1..]);
      SplitWithPrefix(w[1..], s);
      assert [w[0]] + (w[1..] + Split(s)[0]) == w + Split(s)[0];
    } else {
      assert w + s == s;
      assert w + Split(s)[0] == Split(s)[0];
      assert Split(s) == [Split(s)[0]] + Split(s)[1..];
    }
  }

  /** Separator-free text after the input joins its last piece. */
  lemma {:induction false} SplitWithSuffix(s: string, w: string)
    requires SeparatorFree(w)
    ensures |Split(s + w)| == |Split(s)|
    ensures Split(s + w) == Split(s)[..|Split(s)| - 1] + [Split(s)[|Split(s)| - 1] + w]
  {
    if s == [] {
      assert s + w == w;
      SplitSeparatorFree(w);
    } else {
      assert (s + w)[0] == s[0];
      assert (s + w)[1..] == s[1..] + w;
      SplitWithSuffix(s[1..], w);
      if IsSeparator(s[0]) {
        SuffixAfterSeparator(Split(s[1..]), w);
      } else {
        SuffixAfterCharacter(s[0], Split(s[1..]), w);
      }
    }
  }

  lemma SuffixAfterSeparator(p: seq<string>, w: string)
    requires |p| >= 1
    ensures [[]] + (p[..|p| - 1] + [p[|p| - 1] + w])
      == ([[]] + p)[..|p|] + [([[]] + p)[|p|] + w]
  {
    assert ([[]] + p)[..|p|] == [[]] + p[..|p| - 1];
  }

  lemma SuffixAfterCharacter(c: char, p: seq<string>, w: string)
    requires |p| >= 1
    ensures var q := [[c] + p[0]] + p[1..];
      |q| == |p| &&
      [[c] + (p[..|p| - 1] + [p[|p| - 1] + w])[0]] + (p[..|p| - 1] + [p[|p| - 1] + w])[1..]
      == q[..|q| - 1] + [q[|q| - 1] + w]
  {
    var n := |p| - 1;
    var q := [[c] + p[0]] + p[1..];
    if n == 0 {
      assert [c] + (p[0] + w) == ([c] + p[0]) + w;
    } else {
      assert (p[..n] + [p[n] + w])[1..] == p[1..n] + [p[n] + w];
      assert q[..n] == [[c] + p[0]] + p[1..n];
    }
  }

  lemma ParseAtSeparator(a: string, c: char, b: string)
    requires IsSeparator(c)
    ensures ParseTags(a + [c] + b) == ParseTags(a) + ParseTags(b)
  {
    SplitAtSeparator(a, c, b);
    TrimNonEmptyAppend(Split(a), Split(b));
  }

  lemma TrimNonEmptySingle(p: string)
    ensures TrimNonEmpty([p]) == Kept(p)
  {
    assert [p][1..] == [];
  }

  lemma ParseWithWhitespacePrefix(w: string, s: string)
    requires AllWhitespace(w)
    ensures ParseTags(w + s) == ParseTags(s)
  {
    var ps := Split(s);
    SplitWithPrefix(w, s);
    TrimOfWhitespacePrefix(w, ps[0]);
    HeadTail(ps);
    SameFirstKept(ps[0], w + ps[0], ps[1..]);
  }

  lemma HeadTail(ps: seq<string>)
    requires ps != []
    ensures ps == [ps[0]] + ps[1..]
  {
  }

  lemma InitLast(ps: seq<string>)
    requires ps != []
    ensures ps == ps[..|ps| - 1] + [ps[|ps| - 1]]
  {
  }

  lemma SameFirstKept(p: string, p': string, rest: seq<string>)
    requires Trim(p) == Trim(p')
    ensures TrimNonEmpty([p'] + rest) == TrimNonEmpty([p] + rest)
  {
    TrimNonEmptyAppend([p'], rest);
    TrimNonEmptyAppend([p], rest);
    TrimNonEmptySingle(p');
    TrimNonEmptySingle(p);
  }

  lemma ParseWithWhitespaceSuffix(s: string, w: string)
    requires AllWhitespace(w)
    ensures ParseTags(s + w) == ParseTags(s)
  {
    var ps := Split(s);
    var n := |ps| - 1;
    SplitWithSuffix(s, w);
    TrimOfWhitespaceSuffix(ps[n], w);
    InitLast(ps);
    SameLastKept(ps[..n], ps[n], ps[n] + w);
  }

  lemma SameLastKept(init: seq<string>, p: string, p': string)
    requires Trim(p) == Trim(p')
    ensures TrimNonEmpty(init + [p']) == TrimNonEmpty(init + [p])
  {
    TrimNonEmptyAppend(init, [p']);
    TrimNonEmptyAppend(init, [p]);
    TrimNonEmptySingle(p');
    TrimNonEmptySingle(p);
  }

  /** Trimming the whole input first does not change its tags. */
  lemma ParseOfTrimmed(s: string)
    ensures ParseTags(Trim(s)) == ParseTags(s)
  {
    ParseOfTrimStart(s);
    ParseOfTrimEnd(TrimStart(s));
  }

  lemma ParseOfTrimStart(s: string)
    ensures ParseTags(TrimStart(s)) == ParseTags(s)
  {
    var u := TrimStart(s);
    var pre := s[..|s| - |u|];
    assert s == pre + u;
    ParseWithWhitespacePrefix(pre, u);
  }

  lemma ParseOfTrimEnd(u: string)
    ensures ParseTags(TrimEnd(u)) == ParseTags(u)
  {
    var t := TrimEnd(u);
    var suf := u[|t|..];
    assert u == t + suf;
    ParseWithWhitespaceSuffix(t, suf);
  }

  /** `tags.join(', ')`, which fills the tag input when a card is edited. */
  function JoinTags(tags: seq<string>): string {
    if tags == [] then ""
    else if |tags| == 1 then tags[0]
    else tags[0] + ", " + JoinTags(tags[1..])
  }

  lemma ParseSingleClean(t: string)
    requires IsCleanTag(t)
    ensures ParseTags(t) == [t]
  {
    SplitSeparatorFree(t);
    TrimNonEmptySingle(t);
    assert Trim(t) == t;
  }

  /** A separator followed by a space splits the tags in two. */
  lemma ParseAtSeparatorSpace(a: string, c: char, b: string)
    requires IsSeparator(c)
    ensures ParseTags(a + [c] + " " + b) == ParseTags(a) + ParseTags(b)
  {
    ParseAtSeparatorThenSpaced(a, c, b);
    Associative(a + [c], " ", b);
  }

  lemma ParseAtSeparatorThenSpaced(a: string, c: char, b: string)
    requires IsSeparator(c)
    ensures ParseTags(a + [c] + (" " + b)) == ParseTags(a) + ParseTags(b)
  {
    ParseAtSeparatorThenWhitespace(a, c, " ", b);
  }

  lemma ParseAtSeparatorThenWhitespace(a: string, c: char, w: string, b: string)
    requires IsSeparator(c) && AllWhitespace(w)
    ensures ParseTags(a + [c] + (w + b)) == ParseTags(a) + ParseTags(b)
  {
    ParseAtSeparator(a, c, w + b);
    ParseWithWhitespacePrefix(w, b);
  }

  lemma CommaSpace(a: string, b: string)
    ensures a + ", " + b == a + [','] + " " + b
  {
    assert ", " == [','] + " ";
  }

  /** Joining clean tags and parsing the text gives the same tags back. */
  lemma {:induction false} JoinThenParse(tags: seq<string>)
    requires forall i :: 0 <= i < |tags| ==> IsCleanTag(tags[i])
    ensures ParseTags(JoinTags(tags)) == tags
  {
    if tags == [] {
      EmptyParse();
    } else if |tags| == 1 {
      JoinSingle(tags);
    } else {
      JoinThenParse(tags[1..]);
      JoinStep(tags);
    }
  }

  lemma JoinSingle(tags: seq<string>)
    requires |tags| == 1 && IsCleanTag(tags[0])
    ensures ParseTags(JoinTags(tags)) == tags
  {
    ParseSingleClean(tags[0]);
    Singleton(tags);
  }

  lemma Singleton(tags: seq<string>)
    requires |tags| == 1
    ensures tags == [tags[0]]
  {
  }

  lemma JoinStep(tags: seq<string>)
    requires |tags| > 1 && IsCleanTag(tags[0])
    requires ParseTags(JoinTags(tags[1..])) == tags[1..]
    ensures ParseTags(JoinTags(tags)) == tags
  {
    ParseAfterComma(tags[0], JoinTags(tags[1..]));
    assert tags == [tags[0]] + tags[1..];
  }

  /** The text after `, ` holds the remaining tags. */
  lemma ParseAfterComma(t: string, rest: string)
    requires IsCleanTag(t)
    ensures ParseTags(t + ", " + rest) == [t] + ParseTags(rest)
  {
    CommaSpace(t, rest);
    ParseAtSeparatorSpace(t, ',', rest);
    ParseSingleClean(t);
  }

  /** `handleQuickAddTag`: the tag input after clicking a suggested tag. A
      tag the input already holds leaves it as it was; otherwise the tag is
      appended after the trimmed input, with `, ` unless the input already
      ends with a separator. */
  function QuickAdd(input: string, tag: string): string {
    if tag in ParseTags(input) then input
    else
      var t := Trim(input);
      if t != [] then
        (if IsSeparator(t[|t| - 1]) then t + " " + tag else t + ", " + tag)
      else tag
  }

  /** Quick-adding a clean tag the input does not hold appends exactly that
      tag to the parsed list. */
  lemma QuickAddAppends(input: string, tag: string)
    requires IsCleanTag(tag) && tag !in ParseTags(input)
    ensures ParseTags(QuickAdd(input, tag)) == ParseTags(input) + [tag]
  {
    var t := Trim(input);
    ParseOfTrimmed(input);
    if t == [] {
      EmptyParse();
      ParseSingleClean(tag);
    } else {
      AppendAfterText(t, tag);
    }
  }

  /** Appending a clean tag after non-empty text, with the separator
      quick-add chooses, adds exactly that tag. */
  lemma AppendAfterText(t: string, tag: string)
    requires t != [] && IsCleanTag(tag)
    ensures ParseTags(if IsSeparator(t[|t| - 1]) then t + " " + tag else t + ", " + tag)
      == ParseTags(t) + [tag]
  {
    ParseSingleClean(tag);
    if IsSeparator(t[|t| - 1]) {
      QuickAddAfterSeparator(t, tag);
    } else {
      CommaSpace(t, tag);
      ParseAtSeparatorSpace(t, ',', tag);
    }
  }

  lemma EmptyParse()
    ensures ParseTags([]) == []
  {
    assert Split([]) == [[]];
    TrimNonEmptySingle([]);
  }

  lemma {:induction false} QuickAddAfterSeparator(t: string, tag: string)
    requires t != [] && IsSeparator(t[|t| - 1])
    ensures ParseTags(t + " " + tag) == ParseTags(t) + ParseTags(tag)
  {
    DropTrailingSeparator(t);
    SpaceAfterSeparator(t, tag);
  }

  lemma SpaceAfterSeparator(t: string, tag: string)
    requires t != [] && IsSeparator(t[|t| - 1])
    ensures ParseTags(t + " " + tag) == ParseTags(t[..|t| - 1]) + ParseTags(tag)
  {
    var a, c := t[..|t| - 1], t[|t| - 1];
    assert t == a + [c];
    ParseAtSeparatorSpace(a, c, tag);
  }

  /** A separator at the very end adds only an empty piece, which is dropped. */
  lemma DropTrailingSeparator(t: string)
    requires t != [] && IsSeparator(t[|t| - 1])
    ensures ParseTags(t) == ParseTags(t[..|t| - 1])
  {
    var a, c := t[..|t| - 1], t[|t| - 1];
    assert t == a + [c] + [];
    ParseAtSeparator(a, c, []);
    EmptyParse();
  }

  /** A tag the input already holds leaves the input exactly as it was. */
  lemma QuickAddKeepsHeldTag(input: string, tag: string)
    requires tag in ParseTags(input)
    ensures QuickAdd(input, tag) == input
  {
  }

  /** Clicking the same clean tag twice has the effect of clicking it once. */
  lemma QuickAddIdempotent(input: string, tag: string)
    requires IsCleanTag(tag)
    ensures tag in ParseTags(QuickAdd(input, tag))
    ensures QuickAdd(QuickAdd(input, tag), tag) == QuickAdd(input, tag)
  {
    if tag !in ParseTags(input) {
      QuickAddAppends(input, tag);
      assert ParseTags(QuickAdd(input, tag))[|ParseTags(input)|] == tag;
    }
  }

  // The suggestion list

  /** The tags of one list, as a set. */
  function Elements(s: seq<string>): (r: set<string>)
    ensures forall t :: t in r <==> t in s
  {
    set i | 0 <= i < |s| :: s[i]
  }

  /** Every tag carried by some card of the list. */
  ghost function TagsOf(cards: seq<Card>): set<string> {
    if cards == [] then {}
    else TagsOf(cards[..|cards| - 1]) + Elements(cards[|cards| - 1].tags)
  }

  /** A tag is among the suggestions' source exactly when some card has it. */
  lemma {:induction false} TagsOfMembers(cards: seq<Card>, t: string)
    ensures t in TagsOf(cards) <==> exists k :: 0 <= k < |cards| && t in cards[k].tags
  {
    if cards != [] {
      var init := cards[..|cards| - 1];
      TagsOfMembers(init, t);
      if t in TagsOf(init) {
        var k :| 0 <= k < |init| && t in init[k].tags;
        assert cards[k] == init[k];
      } else if exists k :: 0 <= k < |cards| && t in cards[k].tags {
        var k :| 0 <= k < |cards| && t in cards[k].tags;
        if k < |init| {
          assert init[k] == cards[k];
        }
      }
    }
  }

  /** The page's start-up pass: every tag of every card added to a set,
      then `Array.from(tags).sort()`. */
  method DistinctTags(cards: seq<Card>) returns (r: seq<string>)
    ensures forall t :: t in r <==> t in TagsOf(cards)
    ensures StrictlyAscending(r)
    ensures forall i, j :: 0 <= i < j < |r| ==> r[i] != r[j]
  {
    var seen: set<string> := {};
    for i := 0 to |cards|
      invariant seen == TagsOf(cards[..i])
    {
      var tags := cards[i].tags;
      for j := 0 to |tags|
        invariant seen == TagsOf(cards[..i]) + Elements(tags[..j])
      {
        assert tags[..j + 1] == tags[..j] + [tags[j]];
        seen := seen + {tags[j]};
      }
      assert tags[..|tags|] == tags;
      assert cards[..i + 1][..i] == cards[..i];
    }
    assert cards[..|cards|] == cards;
    r := SortAscending(seen);
    AscendingDistinct(r);
  }

  // The form and Save

  /** The editable fields: a card without `id` and `createdAt`. */
  datatype CardForm = CardForm(
    name: string, photo: string, gender: string, birthday: string,
    height: string, weight: string, eyeColor: string, hairStyle: string,
    tags: seq<string>, personality: string, hobbies: string, others: string)

  /** The form filled from a stored card when the page opens in edit mode. */
  function FormOf(c: Card): (f: CardForm)
    ensures f.name == c.name && f.photo == c.photo
    ensures f.gender == c.gender && f.birthday == c.birthday
    ensures f.height == c.height && f.weight == c.weight
    ensures f.eyeColor == c.eyeColor && f.hairStyle == c.hairStyle
    ensures f.tags == c.tags
    ensures f.personality == c.personality && f.hobbies == c.hobbies && f.others == c.others
  {
    CardForm(c.name, c.photo, c.gender, c.birthday, c.height, c.weight,
             c.eyeColor, c.hairStyle, c.tags, c.personality, c.hobbies, c.others)
  }

  /** `handleSave`'s record: `None` when the name is blank, otherwise the
      form's fields with the tags parsed from the tag input. `routeId` is
      the `:id` route parameter (empty in create mode), `stored` what
      `getCardById(routeId)` gave, and `freshId` and `now` the values of
      `crypto.randomUUID()` and `Date.now()`. */
  function AssembleCard(form: CardForm, tagInput: string, routeId: string,
                        stored: Option<Card>, freshId: string, now: int): (r: Option<Card>)
    ensures r.None? <==> Trim(form.name) == []
    ensures r.Some? ==> r.value.tags == ParseTags(tagInput)
    ensures r.Some? ==> r.value.id == (if routeId != [] then routeId else freshId)
    ensures r.Some? && routeId == [] ==> r.value.createdAt == now
    ensures r.Some? && routeId != [] && stored.Some? && stored.value.createdAt != 0
            ==> r.value.createdAt == stored.value.createdAt
    ensures r.Some? && routeId != [] && (stored.None? || stored.value.createdAt == 0)
            ==> r.value.createdAt == now
    ensures r.Some? ==> FormOf(r.value) == form.(tags := ParseTags(tagInput))
  {
    if Trim(form.name) == [] then None
    else
      var id := if routeId != [] then routeId else freshId;
      var createdAt :=
        if routeId != [] && stored.Some? && stored.value.createdAt != 0
        then stored.value.createdAt else now;
      Some(Card(id, form.name, form.photo, form.gender, form.birthday, form.height,
                form.weight, form.eyeColor, form.hairStyle, ParseTags(tagInput),
                form.personality, form.hobbies, form.others, createdAt))
  }

  /** Every saved tag is clean, whatever was typed. */
  lemma SavedTagsAreClean(form: CardForm, tagInput: string, routeId: string,
                          stored: Option<Card>, freshId: string, now: int)
    ensures var r := AssembleCard(form, tagInput, routeId, stored, freshId, now);
      r.Some? ==> forall i :: 0 <= i < |r.value.tags| ==> IsCleanTag(r.value.tags[i])
  {
    ParsedTagsAreClean(tagInput);
  }

  /** Opening a stored card for editing and saving it untouched writes the
      same record back, for a card of the kind this page saves: a non-blank
      name, a non-empty id, a non-zero `createdAt` and clean tags. */
  lemma EditUnchangedRoundTrip(c: Card, freshId: string, now: int)
    requires Trim(c.name) != [] && c.id != [] && c.createdAt != 0
    requires forall i :: 0 <= i < |c.tags| ==> IsCleanTag(c.tags[i])
    ensures AssembleCard(FormOf(c), JoinTags(c.tags), c.id, Some(c), freshId, now) == Some(c)
  {
    JoinThenParse(c.tags);
  }

  /** Saving in edit mode over a stored id replaces that record: the key set
      and the number of records stay the same. */
  lemma EditSaveKeepsCount(m: Records, form: CardForm, tagInput: string,
                           routeId: string, freshId: string, now: int)
    requires routeId != [] && routeId in m && Trim(form.name) != []
    ensures var r := AssembleCard(form, tagInput, routeId, Lookup(m, routeId), freshId, now);
      r.Some? && Put(m, r.value).Keys == m.Keys && |Put(m, r.value)| == |m|
  {
    var r := AssembleCard(form, tagInput, routeId, Lookup(m, routeId), freshId, now);
    PutCount(m, r.value);
  }

  /** Saving in create mode adds one record under a fresh id. */
  lemma CreateSaveAddsOne(m: Records, form: CardForm, tagInput: string,
                          freshId: string, now: int)
    requires freshId !in m && Trim(form.name) != []
    ensures var r := AssembleCard(form, tagInput, [], None, freshId, now);
      r.Some? && |Put(m, r.value)| == |m| + 1 && r.value.createdAt == now
  {
    var r := AssembleCard(form, tagInput, [], None, freshId, now);
    PutCount(m, r.value);
  }

  /** `handleSave` against the store: nothing is written for a blank name;
      otherwise the stored record is read back in edit mode and the
      assembled card is put. */
  method HandleSave(store: CardStore, form: CardForm, tagInput: string, routeId: string,
                    freshId: string, now: int) returns (saved: bool)
    requires store.Valid()
    modifies store
    ensures store.Valid()
    ensures var r := AssembleCard(form, tagInput, routeId, Lookup(old(store.records), routeId), freshId, now);
      saved == r.Some? &&
      store.records == if r.Some? then Put(old(store.records), r.value) else old(store.records)
  {
    if Trim(form.name) == [] {
      return false;
    }
    var stored: Option<Card> := None;
    if routeId != [] {
      stored := store.GetCardById(routeId);
    }
    var r := AssembleCard(form, tagInput, routeId, stored, freshId, now);
    store.SaveCard(r.value);
    saved := true;
  }
}
