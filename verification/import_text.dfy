/**
 The placeholder text of the text-import dialog (`formatPlaceholderText` in
 the `ImportText` component). The server sends example card lists keyed by
 card type; the dialog shows them as the lines a user would type, one
 `<count>x <prefix><name>` line per card, one block per card type, blocks in
 the fixed order Card, Token, Cardback and separated by a blank line.
 */
module ImportText {
  import opened Wrappers
  import opened Strings
  import opened Decimal

  datatype CardType = Card | Token | Cardback

  /** The order in which the blocks are written. */
  const CardTypeOrder: seq<CardType> := [Card, Token, Cardback]

  /** Position of a card type in `CardTypeOrder`. */
  function Rank(t: CardType): nat
  {
    match t
    case Card => 0
    case Token => 1
    case Cardback => 2
  }

  predicate InRankOrder(ts: seq<CardType>)
  {
    forall i, j :: 0 <= i < j < |ts| ==> Rank(ts[i]) < Rank(ts[j])
  }

  /**
   The string constants the component imports: the object key under which
   each card type's placeholders arrive, and the search prefix
   (`ReversedCardTypePrefixes`) written before each name of that type. Their
   values are parameters; nothing assumes the keys are distinct.
   */
  datatype Constants = Constants(
    cardKey: string, tokenKey: string, cardbackKey: string,
    cardPrefix: string, tokenPrefix: string, cardbackPrefix: string)

  function Key(c: Constants, t: CardType): string
  {
    match t
    case Card => c.cardKey
    case Token => c.tokenKey
    case Cardback => c.cardbackKey
  }

  function Prefix(c: Constants, t: CardType): string
  {
    match t
    case Card => c.cardPrefix
    case Token => c.tokenPrefix
    case Cardback => c.cardbackPrefix
  }

  /** One `[count, name]` pair. */
  datatype Placeholder = Placeholder(count: nat, name: string)

  /** A property value: `null`, or an array of pairs. */
  datatype Value = Null | List(items: seq<Placeholder>)

  /** A JavaScript object: its own properties, in key order. */
  type Placeholders = seq<(string, Value)>

  /** No key occurs twice, as in every JavaScript object. */
  predicate UniqueKeys(obj: Placeholders)
  {
    forall i, j :: 0 <= i < j < |obj| ==> obj[i].0 != obj[j].0
  }

  /** `obj[k]`, with `None` for `undefined`. */
  function Get(obj: Placeholders, k: string): (r: Option<Value>)
    ensures r.None? <==> forall i :: 0 <= i < |obj| ==> obj[i].0 != k
    ensures r.Some? ==> (k, r.value) in obj
    decreases |obj|
  {
    if |obj| == 0 then None
    else if obj[0].0 == k then Some(obj[0].1)
    else
      assert forall i :: 1 <= i < |obj| ==> obj[i] == obj[1..][i - 1];
      Get(obj[1..], k)
  }

  /** In an object, a property's value is what a lookup of its key returns. */
  lemma GetUnique(obj: Placeholders, k: string, v: Value)
    requires UniqueKeys(obj)
    requires (k, v) in obj
    ensures Get(obj, k) == Some(v)
  {
    var r := Get(obj, k);
    var i :| 0 <= i < |obj| && obj[i] == (k, v);
    var j :| 0 <= j < |obj| && obj[j] == (k, r.value);
    if i < j {
      assert obj[i].0 == obj[j].0;
    } else if j < i {
      assert obj[j].0 == obj[i].0;
    }
  }

  /** The list of type `t` when `placeholders[key] != null` holds; `None`
      when the key is absent or its value is `null`. */
  function Entry(c: Constants, obj: Placeholders, t: CardType): Option<seq<Placeholder>>
  {
    match Get(obj, Key(c, t))
    case Some(List(items)) => Some(items)
    case _ => None
  }

  predicate Present(c: Constants, obj: Placeholders, t: CardType)
  {
    Entry(c, obj, t).Some?
  }

  /** How many of the three card types are present. */
  function CountPresent(c: Constants, obj: Placeholders): nat
  {
    (if Present(c, obj, Card) then 1 else 0)
    + (if Present(c, obj, Token) then 1 else 0)
    + (if Present(c, obj, Cardback) then 1 else 0)
  }

  const Separator: string := "\n"

  /** The template literal `${count}x ${prefix}${name}`. */
  function RenderLine(c: Constants, t: CardType, p: Placeholder): string
  {
    NatToString(p.count) + "x " + Prefix(c, t) + p.name
  }

  function RenderLines(c: Constants, t: CardType, items: seq<Placeholder>): seq<string>
  {
    seq(|items|, i requires 0 <= i < |items| => RenderLine(c, t, items[i]))
  }

  /** The block of one card type: its lines joined by single newlines. */
  function BlockText(c: Constants, obj: Placeholders, t: CardType): string
  {
    match Entry(c, obj, t)
    case Some(items) => Join(Separator, RenderLines(c, t, items))
    case None => ""
  }

  /** `[t]` when `t` is present, `[]` otherwise. */
  function IfPresent(c: Constants, obj: Placeholders, t: CardType): seq<CardType>
  {
    if Present(c, obj, t) then [t] else []
  }

  /** The types of `ts` that are present, in the order of `ts`. */
  function PresentTypes(c: Constants, obj: Placeholders, ts: seq<CardType>): (r: seq<CardType>)
    ensures forall t :: t in r <==> t in ts && Present(c, obj, t)
    ensures |r| <= |ts|
    decreases |ts|
  {
    if |ts| == 0 then []
    else
      assert ts == ts[..|ts| - 1] + [ts[|ts| - 1]];
      PresentTypes(c, obj, ts[..|ts| - 1]) + IfPresent(c, obj, ts[|ts| - 1])
  }

  function BlockTexts(c: Constants, obj: Placeholders, types: seq<CardType>): seq<string>
  {
    seq(|types|, i requires 0 <= i < |types| => BlockText(c, obj, types[i]))
  }

  /** Declarative reading of the placeholder text: the blocks of the present
      card types, in the fixed order, joined by a blank line. */
  function FormatText(c: Constants, obj: Placeholders): string
  {
    Join(Separator + Separator, BlockTexts(c, obj, PresentTypes(c, obj, CardTypeOrder)))
  }

  /** `formatPlaceholderText`: walk the three card types in order, push the
      block of each one whose value is not null or undefined, and join the
      blocks with a doubled separator. */
  method FormatPlaceholderText(c: Constants, placeholders: Placeholders) returns (text: string)
    ensures text == FormatText(c, placeholders)
  {
    var separator := "\n";
    var blocks: seq<string> := [];
    for i := 0 to |CardTypeOrder|
      invariant blocks == BlockTexts(c, placeholders, PresentTypes(c, placeholders, CardTypeOrder[..i]))
    {
      var cardType := CardTypeOrder[i];
      ghost var done := PresentTypes(c, placeholders, CardTypeOrder[..i]);
      assert CardTypeOrder[..i + 1] == CardTypeOrder[..i] + [cardType];
      PresentTypesSnoc(c, placeholders, CardTypeOrder[..i], cardType);
      BlockTextsAppend(c, placeholders, done, IfPresent(c, placeholders, cardType));
      BlockTextsIfPresent(c, placeholders, cardType);
      var value := Get(placeholders, Key(c, cardType));
      if value.Some? && value.value.List? {
        var lines := RenderLines(c, cardType, value.value.items);
        blocks := blocks + [Join(separator, lines)];
      }
    }
    assert CardTypeOrder[..|CardTypeOrder|] == CardTypeOrder;
    text := Join(separator + separator, blocks);
  }

  // ----- Order and count of the blocks -----

  /** The blocks present in one card type, as a list of zero or one block. */
  function Section(c: Constants, obj: Placeholders, t: CardType): seq<string>
  {
    if Present(c, obj, t) then [BlockText(c, obj, t)] else []
  }

  /** The text is the Card block, then the Token block, then the Cardback
      block, each only when its type is present, joined by `"\n\n"`;
      the order of the keys in the object plays no part. */
  lemma FixedOrder(c: Constants, obj: Placeholders)
    ensures FormatText(c, obj)
         == Join("\n\n", Section(c, obj, Card) + Section(c, obj, Token) + Section(c, obj, Cardback))
  {
    PresentBlocksInOrder(c, obj);
    assert Separator + Separator == "\n\n";
  }

  /** The blocks of the present types are the three sections in order. */
  lemma PresentBlocksInOrder(c: Constants, obj: Placeholders)
    ensures BlockTexts(c, obj, PresentTypes(c, obj, CardTypeOrder))
         == Section(c, obj, Card) + Section(c, obj, Token) + Section(c, obj, Cardback)
  {
    var a, b, d := IfPresent(c, obj, Card), IfPresent(c, obj, Token), IfPresent(c, obj, Cardback);
    PresentTypesOfOrder(c, obj);
    BlockTextsAppend(c, obj, a + b, d);
    BlockTextsAppend(c, obj, a, b);
    BlockTextsIfPresent(c, obj, Card);
    BlockTextsIfPresent(c, obj, Token);
    BlockTextsIfPresent(c, obj, Cardback);
  }

  /** Filtering the fixed order keeps the present types in that order. */
  lemma PresentTypesOfOrder(c: Constants, obj: Placeholders)
    ensures PresentTypes(c, obj, CardTypeOrder)
         == IfPresent(c, obj, Card) + IfPresent(c, obj, Token) + IfPresent(c, obj, Cardback)
  {
    assert PresentTypes(c, obj, [Card]) == IfPresent(c, obj, Card) by {
      PresentTypesSnoc(c, obj, [], Card);
      assert [] + [Card] == [Card];
    }
    assert PresentTypes(c, obj, [Card, Token]) == IfPresent(c, obj, Card) + IfPresent(c, obj, Token) by {
      PresentTypesSnoc(c, obj, [Card], Token);
      assert [Card] + [Token] == [Card, Token];
    }
    PresentTypesSnoc(c, obj, [Card, Token], Cardback);
    assert [Card, Token] + [Cardback] == CardTypeOrder;
  }

  /** Filtering one more type appends it when it is present. */
  lemma PresentTypesSnoc(c: Constants, obj: Placeholders, ts: seq<CardType>, t: CardType)
    ensures PresentTypes(c, obj, ts + [t])
         == PresentTypes(c, obj, ts) + (if Present(c, obj, t) then [t] else [])
  {
    assert (ts + [t])[..|ts|] == ts;
  }

  /** Rendering blocks commutes with concatenating type lists. */
  lemma BlockTextsAppend(c: Constants, obj: Placeholders, a: seq<CardType>, b: seq<CardType>)
    ensures BlockTexts(c, obj, a + b) == BlockTexts(c, obj, a) + BlockTexts(c, obj, b)
  {
  }

  /** Rendering the blocks of `IfPresent(t)` gives `Section(t)`. */
  lemma BlockTextsIfPresent(c: Constants, obj: Placeholders, t: CardType)
    ensures BlockTexts(c, obj, IfPresent(c, obj, t)) == Section(c, obj, t)
  {
  }

  /** One block per present card type, and each present type has exactly one
      block, in rank order. */
  lemma BlockPerPresentType(c: Constants, obj: Placeholders)
    ensures |PresentTypes(c, obj, CardTypeOrder)| == CountPresent(c, obj)
    ensures forall t :: t in PresentTypes(c, obj, CardTypeOrder) <==> Present(c, obj, t)
    ensures InRankOrder(PresentTypes(c, obj, CardTypeOrder))
  {
    var p := PresentTypes(c, obj, CardTypeOrder);
    var a, b, d := IfPresent(c, obj, Card), IfPresent(c, obj, Token), IfPresent(c, obj, Cardback);
    assert |p| == CountPresent(c, obj) by {
      PresentTypesOfOrder(c, obj);
    }
    assert forall t :: t in p <==> Present(c, obj, t) by {
      EveryTypeInOrder();
    }
    assert InRankOrder(p) by {
      PresentTypesOfOrder(c, obj);
      InRankOrderAppend(a, b);
      InRankOrderAppend(a + b, d);
    }
  }

  /** The fixed order lists every card type. */
  lemma EveryTypeInOrder()
    ensures forall t :: t in CardTypeOrder
  {
    forall t
      ensures t in CardTypeOrder
    {
      assert CardTypeOrder[Rank(t)] == t;
    }
  }

  /** Concatenating two rank-ordered lists, all of the first below all of the
      second, stays rank-ordered. */
  lemma InRankOrderAppend(a: seq<CardType>, b: seq<CardType>)
    requires InRankOrder(a) && InRankOrder(b)
    requires forall x, y :: x in a && y in b ==> Rank(x) < Rank(y)
    ensures InRankOrder(a + b)
  {
    forall i, j | 0 <= i < j < |a + b|
      ensures Rank((a + b)[i]) < Rank((a + b)[j])
    {
      if j < |a| {
      } else if i >= |a| {
        assert (a + b)[i] == b[i - |a|] && (a + b)[j] == b[j - |a|];
      } else {
        assert (a + b)[i] in a && (a + b)[j] in b;
      }
    }
  }

  // ----- Which keys matter -----

  /** The text depends only on the values under the three card-type keys. */
  lemma SameEntriesSameText(c: Constants, o1: Placeholders, o2: Placeholders)
    requires forall t :: Entry(c, o1, t) == Entry(c, o2, t)
    ensures FormatText(c, o1) == FormatText(c, o2)
  {
    FixedOrder(c, o1);
    FixedOrder(c, o2);
    assert forall t :: Section(c, o1, t) == Section(c, o2, t);
  }

  /** A property under any other key, inserted anywhere, leaves the text unchanged. */
  lemma OtherKeysIgnored(c: Constants, obj: Placeholders, i: nat, k: string, v: Value)
    requires i <= |obj|
    requires k != Key(c, Card) && k != Key(c, Token) && k != Key(c, Cardback)
    ensures FormatText(c, obj[..i] + [(k, v)] + obj[i..]) == FormatText(c, obj)
  {
    forall t
      ensures Entry(c, obj[..i] + [(k, v)] + obj[i..], t) == Entry(c, obj, t)
    {
      GetInsertOther(obj, i, k, v, Key(c, t));
    }
    SameEntriesSameText(c, obj[..i] + [(k, v)] + obj[i..], obj);
  }

  /** Inserting a property does not change lookups of other keys. */
  lemma {:induction false} GetInsertOther(obj: Placeholders, i: nat, k: string, v: Value, k': string)
    requires i <= |obj|
    requires k' != k
    ensures Get(obj[..i] + [(k, v)] + obj[i..], k') == Get(obj, k')
    decreases i
  {
    var o := obj[..i] + [(k, v)] + obj[i..];
    if i == 0 {
      assert o[1..] == obj;
    } else {
      assert o[0] == obj[0];
      assert o[1..] == obj[1..][..i - 1] + [(k, v)] + obj[1..][i - 1..];
      GetInsertOther(obj[1..], i - 1, k, v, k');
    }
  }

  /** A `null` value fails the `!= null` test just as a missing key does:
      adding a key with value `null` leaves the text unchanged. */
  lemma NullSameAsAbsent(c: Constants, obj: Placeholders, i: nat, k: string)
    requires i <= |obj|
    requires forall j :: 0 <= j < |obj| ==> obj[j].0 != k
    ensures FormatText(c, obj[..i] + [(k, Null)] + obj[i..]) == FormatText(c, obj)
  {
    var o := obj[..i] + [(k, Null)] + obj[i..];
    forall t
      ensures Entry(c, o, t) == Entry(c, obj, t)
    {
      if Key(c, t) == k {
        assert o[i] == (k, Null);
        var r := Get(o, k);
        var j :| 0 <= j < |o| && o[j] == (k, r.value);
      } else {
        GetInsertOther(obj, i, k, Null, Key(c, t));
      }
    }
    SameEntriesSameText(c, o, obj);
  }

  /** Reordering the properties of an object leaves the text unchanged. */
  lemma KeyOrderIrrelevant(c: Constants, o1: Placeholders, o2: Placeholders)
    requires UniqueKeys(o1) && UniqueKeys(o2)
    requires multiset(o1) == multiset(o2)
    ensures FormatText(c, o1) == FormatText(c, o2)
  {
    forall k
      ensures Get(o1, k) == Get(o2, k)
    {
      GetPermutation(o1, o2, k);
    }
    SameEntriesSameText(c, o1, o2);
  }

  /** Lookups in an object do not depend on the order of its properties. */
  lemma GetPermutation(o1: Placeholders, o2: Placeholders, k: string)
    requires UniqueKeys(o1) && UniqueKeys(o2)
    requires multiset(o1) == multiset(o2)
    ensures Get(o1, k) == Get(o2, k)
  {
    match Get(o1, k)
    case Some(v) =>
      assert (k, v) in multiset(o2);
      GetUnique(o2, k, v);
    case None =>
      assert forall j :: 0 <= j < |o2| ==> o2[j] in multiset(o1);
  }

  // ----- Line format -----

  /** Reads a line `<digits>x <rest>` back into its count and the text after
      `"x "`; the inverse of `RenderLine` up to the prefix. */
  function ParseLine(line: string): Option<(nat, string)>
  {
    var d := LeadingDigits(line);
    if d == 0 || d + 2 > |line| || line[d] != 'x' || line[d + 1] != ' ' then None
    else Some((ParseDecimal(line[..d]), line[d + 2..]))
  }

  /** A rendered line gives back its count and its prefixed name. */
  lemma ParseRenderLine(c: Constants, t: CardType, p: Placeholder)
    ensures ParseLine(RenderLine(c, t, p)) == Some((p.count, Prefix(c, t) + p.name))
  {
    var digits := NatToString(p.count);
    assert RenderLine(c, t, p) == digits + "x " + (Prefix(c, t) + p.name);
    ParseCountedLine(digits, Prefix(c, t) + p.name);
    ParseNatToString(p.count);
  }

  /** A count numeral, `"x "` and any tail parse back into the count and the tail. */
  lemma ParseCountedLine(digits: string, tail: string)
    requires |digits| >= 1 && AllDigits(digits)
    ensures ParseLine(digits + "x " + tail) == Some((ParseDecimal(digits), tail))
  {
    var line := digits + "x " + tail;
    assert line == digits + ("x " + tail);
    LeadingDigitsOfNumeral(digits, "x " + tail);
    assert line[..|digits|] == digits;
    assert line[|digits|] == 'x' && line[|digits| + 1] == ' ';
    assert line[|digits| + 2..] == tail;
  }

  /** No name under type `t` and not its prefix contain a newline. */
  predicate SingleLineType(c: Constants, obj: Placeholders, t: CardType)
  {
    && '\n' !in Prefix(c, t)
    && (Entry(c, obj, t).Some? ==>
          forall j :: 0 <= j < |Entry(c, obj, t).value| ==> '\n' !in Entry(c, obj, t).value[j].name)
  }

  /** The lines a block shows: its rendered lines, or one empty line when
      the type's list is empty. */
  function SectionLines(c: Constants, obj: Placeholders, t: CardType): seq<string>
  {
    match Entry(c, obj, t)
    case Some(items) => if |items| == 0 then [""] else RenderLines(c, t, items)
    case None => [""]
  }

  /** The lines of the whole text: each present type's lines in the fixed
      order with one empty line between neighbouring blocks. */
  function ExpectedLines(c: Constants, obj: Placeholders): seq<string>
  {
    var p := PresentTypes(c, obj, CardTypeOrder);
    if |p| == 0 then [""]
    else Join([""], seq(|p|, i requires 0 <= i < |p| => SectionLines(c, obj, p[i])))
  }

  /** Within a block the entries keep their order, one per line, with
      single newlines between them and none before or after. */
  lemma BlockLines(c: Constants, obj: Placeholders, t: CardType)
    requires SingleLineType(c, obj, t)
    ensures Split('\n', BlockText(c, obj, t)) == SectionLines(c, obj, t)
  {
    match Entry(c, obj, t)
    case Some(items) =>
      var lines := RenderLines(c, t, items);
      if |items| == 0 {
        assert BlockText(c, obj, t) == "";
      } else {
        forall j | 0 <= j < |lines|
          ensures '\n' !in lines[j]
        {
          var digits := NatToString(items[j].count);
          assert '\n' !in digits;
          assert lines[j] == digits + "x " + Prefix(c, t) + items[j].name;
        }
        SplitJoin('\n', lines);
      }
    case None =>
  }

  /** Splitting the text on newlines gives each block's lines in the fixed
      order, one empty line between neighbouring blocks, and `[""]` when
      there is no block. */
  lemma TextLines(c: Constants, obj: Placeholders)
    requires forall t :: SingleLineType(c, obj, t)
    ensures Split('\n', FormatText(c, obj)) == ExpectedLines(c, obj)
  {
    var p := PresentTypes(c, obj, CardTypeOrder);
    var blocks := BlockTexts(c, obj, p);
    if |p| >= 1 {
      assert Separator + Separator == ['\n', '\n'];
      SplitJoinDoubled('\n', blocks);
      forall i | 0 <= i < |p|
        ensures Split('\n', blocks[i]) == SectionLines(c, obj, p[i])
      {
        BlockLines(c, obj, p[i]);
      }
      assert SplitEach('\n', blocks) == seq(|p|, i requires 0 <= i < |p| => SectionLines(c, obj, p[i]));
    }
  }

  // ----- Empty text -----

  /** A present type's block is empty exactly when its list is empty. */
  lemma BlockEmptyIff(c: Constants, obj: Placeholders, t: CardType)
    requires Present(c, obj, t)
    ensures BlockText(c, obj, t) == "" <==> Entry(c, obj, t).value == []
  {
    var items := Entry(c, obj, t).value;
    var lines := RenderLines(c, t, items);
    if |items| > 0 {
      assert |lines[0]| >= 1;
      JoinEmptyIff(Separator, lines);
    }
  }

  /** When none of the three types is present the text is empty. */
  lemma NoTypeGivesEmptyText(c: Constants, obj: Placeholders)
    requires !Present(c, obj, Card) && !Present(c, obj, Token) && !Present(c, obj, Cardback)
    ensures FormatText(c, obj) == ""
  {
    FixedOrder(c, obj);
  }

  /** The text is empty exactly when no type is present, or one type is
      present and its list is empty. */
  lemma EmptyTextIff(c: Constants, obj: Placeholders)
    ensures FormatText(c, obj) == "" <==>
              (CountPresent(c, obj) == 0
               || (CountPresent(c, obj) == 1
                   && forall t :: Present(c, obj, t) ==> Entry(c, obj, t).value == []))
  {
    var p := PresentTypes(c, obj, CardTypeOrder);
    var blocks := BlockTexts(c, obj, p);
    BlockPerPresentType(c, obj);
    JoinEmptyIff(Separator + Separator, blocks);
    if |p| == 1 {
      assert forall t :: Present(c, obj, t) ==> t == p[0];
      BlockEmptyIff(c, obj, p[0]);
    }
  }

  /** A type present with an empty list still gets its (empty) block, so
      both of its separators remain. */
  lemma EmptyListKeepsSeparators(c: Constants, obj: Placeholders)
    requires Present(c, obj, Card) && Present(c, obj, Cardback)
    requires Entry(c, obj, Token) == Some([])
    ensures FormatText(c, obj) == BlockText(c, obj, Card) + "\n\n\n\n" + BlockText(c, obj, Cardback)
  {
    FixedOrder(c, obj);
    assert BlockText(c, obj, Token) == "";
    JoinAroundEmpty(Section(c, obj, Card), Section(c, obj, Token), Section(c, obj, Cardback),
                    BlockText(c, obj, Card), BlockText(c, obj, Cardback));
  }

  /** An empty middle block between two blocks leaves two doubled separators in a row. */
  lemma JoinAroundEmpty(s1: seq<string>, s2: seq<string>, s3: seq<string>, a: string, b: string)
    requires s1 == [a] && s2 == [""] && s3 == [b]
    ensures Join("\n\n", s1 + s2 + s3) == a + "\n\n\n\n" + b
  {
    assert s1 + s2 + s3 == [a, "", b];
    JoinThree("\n\n", a, "", b);
  }
}
