/**
 * Emoji helpers: the identifiers of the statistics sort orders, extraction
 * of custom emoji tokens `<a?:name:id>` from message text, and counting how
 * often each emoji occurs.
 */
module Emoji {
  import opened Wrappers
  import opened Collections
  import Numerals

  type u64 = x: int | 0 <= x < 0x1_0000_0000_0000_0000
  type i16 = x: int | -0x8000 <= x < 0x8000

  const MaxI16: int := 0x7FFF

  // ---------------------------------------------------------------------
  // Sort orders

  datatype StatsSort = CountDesc | CountAsc | DateDesc | DateAsc {
    /** The identifier a sort order is stored and selected by. */
    function Id(): string {
      match this
      case CountDesc => "count_desc"
      case CountAsc => "count_asc"
      case DateDesc => "date_desc"
      case DateAsc => "date_asc"
    }

    /** The label shown to users when choosing a sort order. */
    function Name(): string {
      match this
      case CountDesc => "Most Used"
      case CountAsc => "Least Used"
      case DateDesc => "Most Recent"
      case DateAsc => "Least Recent"
    }
  }

  /** A select-menu entry: the label shown and the value sent back. */
  datatype MenuOption = MenuOption(text: string, value: string)

  function ToMenuOption(v: StatsSort): (o: MenuOption)
    ensures TryFromString(o.value) == Ok(v)
  {
    MenuOption(v.Name(), v.Id())
  }

  /** The sort order with identifier `s`, or an "unknown sort" error. */
  function TryFromString(s: string): (r: Result<StatsSort, string>)
    ensures r.Ok? ==> r.value.Id() == s
    ensures r.Err? ==> forall v: StatsSort :: v.Id() != s
  {
    match s
    case "count_desc" => Ok(CountDesc)
    case "count_asc" => Ok(CountAsc)
    case "date_desc" => Ok(DateDesc)
    case "date_asc" => Ok(DateAsc)
    case _ => Err("unknown sort " + s)
  }

  lemma SortRoundTrip(v: StatsSort)
    ensures TryFromString(v.Id()) == Ok(v)
  {
  }

  lemma SortIdInjective(a: StatsSort, b: StatsSort)
    requires a.Id() == b.Id() || a.Name() == b.Name()
    ensures a == b
  {
  }

  // ---------------------------------------------------------------------
  // Parsing emoji tokens

  datatype Emoji = Emoji(id: u64, guildId: u64, name: string, animated: bool)

  /** The ASCII `[[:word:]]` class. */
  predicate IsWordChar(c: char) {
    'a' <= c <= 'z' || 'A' <= c <= 'Z' || '0' <= c <= '9' || c == '_'
  }

  /** The ASCII `[[:digit:]]` class. */
  predicate IsDigitChar(c: char) {
    '0' <= c <= '9'
  }

  /** The end of the longest run of characters in the class starting at `i`. */
  function RunEnd(s: string, i: nat, inClass: char -> bool): (j: nat)
    requires i <= |s|
    ensures i <= j <= |s|
    ensures forall k :: i <= k < j ==> inClass(s[k])
    ensures j == |s| || !inClass(s[j])
    decreases |s| - i
  {
    if i < |s| && inClass(s[i]) then RunEnd(s, i + 1, inClass) else i
  }

  /** The parts of one token and its length in characters. */
  datatype Token = Token(animated: bool, name: string, digits: string, length: nat)

  /**
   * The match of `<(a?):([[:word:]]+):([[:digit:]]+)>` at the start of `s`.
   * The classes exclude ':' and '>', so the greedy runs leave nothing to
   * backtrack over: the match, if there is one, is determined.
   */
  function MatchPrefix(s: string): (t: Option<Token>)
    ensures t.Some? ==>
      && IsWord(t.value.name) && IsDigits(t.value.digits)
      && t.value.length <= |s|
      && s[..t.value.length] == TokenText(t.value.animated, t.value.name, t.value.digits)
  {
    if |s| < 2 || s[0] != '<' then None
    else
      var colon := if s[1] == 'a' then 2 else 1;
      if colon >= |s| || s[colon] != ':' then None
      else
        var nameEnd := RunEnd(s, colon + 1, IsWordChar);
        if nameEnd == colon + 1 || nameEnd == |s| || s[nameEnd] != ':' then None
        else
          var idEnd := RunEnd(s, nameEnd + 1, IsDigitChar);
          if idEnd == nameEnd + 1 || idEnd == |s| || s[idEnd] != '>' then None
          else
            var t := Token(colon == 2, s[colon + 1..nameEnd], s[nameEnd + 1..idEnd], idEnd + 1);
            TokenLayout(s, colon, nameEnd, idEnd);
            Some(t)
  }

  /** One or more ASCII digits. */
  predicate IsDigits(digits: string) {
    |digits| > 0 && forall i :: 0 <= i < |digits| ==> IsDigitChar(digits[i])
  }

  /** The text of a token with the given parts. */
  function TokenText(animated: bool, name: string, digits: string): string {
    (if animated then "<a:" else "<:") + name + ":" + digits + ">"
  }

  /** The matched prefix is the token assembled from the parts the match reads off. */
  lemma TokenLayout(s: string, colon: nat, nameEnd: nat, idEnd: nat)
    requires 2 <= |s| && s[0] == '<' && colon == (if s[1] == 'a' then 2 else 1)
    requires colon < nameEnd < idEnd < |s| && s[colon] == ':' && s[nameEnd] == ':' && s[idEnd] == '>'
    ensures s[..idEnd + 1] == TokenText(colon == 2, s[colon + 1..nameEnd], s[nameEnd + 1..idEnd])
  {
    var pre := if colon == 2 then "<a:" else "<:";
    assert s[..colon + 1] == pre;
    assert s[..idEnd + 1]
      == s[..colon + 1] + s[colon + 1..nameEnd] + [s[nameEnd]] + s[nameEnd + 1..idEnd] + [s[idEnd]];
  }

  predicate IsWord(name: string) {
    |name| > 0 && forall i :: 0 <= i < |name| ==> IsWordChar(name[i])
  }

  function Prepend(e: Emoji, r: Option<seq<Emoji>>): Option<seq<Emoji>> {
    match r
    case None => None
    case Some(es) => Some([e] + es)
  }

  /**
   * All tokens of `s`, leftmost first and not overlapping; None when a
   * token's id does not fit in 64 bits (the id parse is unwrapped and panics).
   */
  function Scan(guildId: u64, s: string): (r: Option<seq<Emoji>>)
    ensures r.Some? ==> forall e :: e in r.value ==> e.guildId == guildId && IsWord(e.name)
    decreases |s|
  {
    if s == [] then Some([])
    else
      match MatchPrefix(s)
      case None => Scan(guildId, s[1..])
      case Some(t) =>
        match Numerals.FromStrRadix(t.digits, Numerals.Decimal, 0x1_0000_0000_0000_0000)
        case None => None
        case Some(id) => Prepend(Emoji(id, guildId, t.name, t.animated), Scan(guildId, s[t.length..]))
  }

  function ParseEmojisFromString(guildId: u64, content: string): Option<seq<Emoji>> {
    Scan(guildId, content)
  }

  /** The token text of an emoji, its id written in decimal. */
  function Render(e: Emoji): string {
    TokenText(e.animated, e.name, Numerals.Numeral(e.id, Numerals.Decimal))
  }

  /** The token texts separated by single spaces. */
  function RenderAll(es: seq<Emoji>): string {
    if es == [] then ""
    else if |es| == 1 then Render(es[0])
    else Render(es[0]) + " " + RenderAll(es[1..])
  }

  /** A run that stops at the first character outside the class. */
  lemma RunEndAt(s: string, i: nat, inClass: char -> bool, j: nat)
    requires i <= j < |s|
    requires forall k :: i <= k < j ==> inClass(s[k])
    requires !inClass(s[j])
    ensures RunEnd(s, i, inClass) == j
  {
  }

  /** The match of a token whose parts sit at the given positions. */
  lemma MatchPrefixAt(s: string, colon: nat, nameEnd: nat, idEnd: nat)
    requires 2 <= |s| && s[0] == '<' && colon == (if s[1] == 'a' then 2 else 1)
    requires colon < nameEnd - 1 && nameEnd < idEnd - 1 && idEnd < |s|
    requires s[colon] == ':' && s[nameEnd] == ':' && s[idEnd] == '>'
    requires forall k :: colon < k < nameEnd ==> IsWordChar(s[k])
    requires forall k :: nameEnd < k < idEnd ==> IsDigitChar(s[k])
    ensures MatchPrefix(s) == Some(Token(colon == 2, s[colon + 1..nameEnd], s[nameEnd + 1..idEnd], idEnd + 1))
  {
    RunEndAt(s, colon + 1, IsWordChar, nameEnd);
    RunEndAt(s, nameEnd + 1, IsDigitChar, idEnd);
  }

  /** Where the middle part of a concatenation sits. */
  lemma Between(a: string, b: string, c: string)
    ensures (a + b + c)[|a|..|a| + |b|] == b
    ensures forall k :: |a| <= k < |a| + |b| ==> (a + b + c)[k] == b[k - |a|]
  {
  }

  /** Where the parts of an assembled token sit. */
  lemma PartsLayout(pre: string, name: string, digits: string, tail: string)
    ensures var s := pre + name + ":" + digits + ">" + tail;
      var nameEnd := |pre| + |name|;
      var idEnd := nameEnd + 1 + |digits|;
      && s[|pre|..nameEnd] == name
      && (forall k :: |pre| <= k < nameEnd ==> s[k] == name[k - |pre|])
      && s[nameEnd] == ':'
      && s[nameEnd + 1..idEnd] == digits
      && (forall k :: nameEnd < k < idEnd ==> s[k] == digits[k - nameEnd - 1])
      && s[idEnd] == '>'
  {
    var s := pre + name + ":" + digits + ">" + tail;
    assert s == pre + name + (":" + digits + ">" + tail);
    Between(pre, name, ":" + digits + ">" + tail);
    assert s == (pre + name + ":") + digits + (">" + tail);
    Between(pre + name + ":", digits, ">" + tail);
  }

  /** A token assembled from its parts is matched whole. */
  lemma MatchParts(animated: bool, name: string, digits: string, tail: string)
    requires IsWord(name) && IsDigits(digits)
    ensures MatchPrefix(TokenText(animated, name, digits) + tail)
      == Some(Token(animated, name, digits, |TokenText(animated, name, digits)|))
  {
    var pre := if animated then "<a:" else "<:";
    var s := pre + name + ":" + digits + ">" + tail;
    assert s == TokenText(animated, name, digits) + tail;
    PartsLayout(pre, name, digits, tail);
    assert s[0] == '<' && s[1] == pre[1] && s[|pre| - 1] == ':';
    MatchPrefixAt(s, |pre| - 1, |pre| + |name|, |pre| + |name| + 1 + |digits|);
  }

  /** A rendered token at the front of any text is matched whole. */
  lemma MatchRendered(e: Emoji, tail: string)
    requires IsWord(e.name)
    ensures MatchPrefix(Render(e) + tail)
      == Some(Token(e.animated, e.name, Numerals.Numeral(e.id, Numerals.Decimal), |Render(e)|))
  {
    var digits := Numerals.Numeral(e.id, Numerals.Decimal);
    DecimalDigits(digits);
    MatchParts(e.animated, e.name, digits, tail);
  }

  /** Decimal digits in the numeral sense are digits in the token's sense. */
  lemma DecimalDigits(digits: string)
    requires digits != [] && Numerals.AllDigits(digits, Numerals.Decimal)
    ensures IsDigits(digits)
  {
    forall k | 0 <= k < |digits| ensures IsDigitChar(digits[k]) {
      assert Numerals.Radix.Decimal.IsDigit(digits[k]);
    }
  }

  /**
   * A token whose digits fit in 64 bits, leading zeros allowed, is parsed to
   * the emoji with that id; scanning then carries on right after the token.
   */
  lemma ScanToken(guildId: u64, animated: bool, name: string, digits: string, tail: string)
    requires IsWord(name) && digits != [] && Numerals.AllDigits(digits, Numerals.Decimal)
    requires Numerals.Value(digits, Numerals.Decimal) < 0x1_0000_0000_0000_0000
    ensures Scan(guildId, TokenText(animated, name, digits) + tail)
      == Prepend(Emoji(Numerals.Value(digits, Numerals.Decimal), guildId, name, animated), Scan(guildId, tail))
  {
    var token := TokenText(animated, name, digits);
    DecimalDigits(digits);
    MatchParts(animated, name, digits, tail);
    Numerals.DigitsRead(digits, Numerals.Decimal, 0x1_0000_0000_0000_0000);
    assert (token + tail)[|token|..] == tail;
  }

  /** A token whose digits do not fit in 64 bits panics the parse. */
  lemma ScanTokenOverflow(guildId: u64, animated: bool, name: string, digits: string, tail: string)
    requires IsWord(name) && digits != [] && Numerals.AllDigits(digits, Numerals.Decimal)
    requires Numerals.Value(digits, Numerals.Decimal) >= 0x1_0000_0000_0000_0000
    ensures Scan(guildId, TokenText(animated, name, digits) + tail) == None
  {
    DecimalDigits(digits);
    MatchParts(animated, name, digits, tail);
    Numerals.DigitsRead(digits, Numerals.Decimal, 0x1_0000_0000_0000_0000);
  }

  /** A rendered token is parsed to its emoji, then scanning carries on after it. */
  lemma ScanRendered(guildId: u64, e: Emoji, tail: string)
    requires IsWord(e.name) && e.guildId == guildId
    ensures Scan(guildId, Render(e) + tail) == Prepend(e, Scan(guildId, tail))
  {
    Numerals.ValueOfNumeral(e.id, Numerals.Decimal);
    ScanToken(guildId, e.animated, e.name, Numerals.Numeral(e.id, Numerals.Decimal), tail);
  }

  /** Text without a '<' holds no token and is skipped. */
  lemma {:induction false} ScanSkipsPlainText(guildId: u64, text: string, rest: string)
    requires '<' !in text
    ensures Scan(guildId, text + rest) == Scan(guildId, rest)
  {
    if text == [] {
      assert text + rest == rest;
    } else {
      assert text[0] in text;
      var s := text + rest;
      assert s[0] == text[0];
      assert MatchPrefix(s) == None;
      assert Scan(guildId, s) == Scan(guildId, s[1..]);
      assert s[1..] == text[1..] + rest;
      ScanSkipsPlainText(guildId, text[1..], rest);
    }
  }

  /** Text in which no position starts a token yields no emoji. */
  lemma {:induction false} PlainTextHasNoEmoji(guildId: u64, text: string)
    requires forall i :: 0 <= i < |text| ==> MatchPrefix(text[i..]).None?
    ensures ParseEmojisFromString(guildId, text) == Some([])
  {
    if text != [] {
      assert text[0..] == text;
      forall i | 0 <= i < |text[1..]| ensures MatchPrefix(text[1..][i..]).None? {
        assert text[1..][i..] == text[i + 1..];
      }
      PlainTextHasNoEmoji(guildId, text[1..]);
    }
  }

  /** A '<' that starts no token is passed over. */
  lemma LoneAngleExample()
    ensures ParseEmojisFromString(0, "a < b") == Some([])
  {
    var text := "a < b";
    forall i | 0 <= i < |text| ensures MatchPrefix(text[i..]).None? {
      if i == 2 {
        assert text[i..][1] == ' ';
      } else {
        assert text[i..][0] != '<';
      }
    }
    PlainTextHasNoEmoji(0, text);
  }

  /** A token needs at least one id digit. */
  lemma EmptyIdExample()
    ensures ParseEmojisFromString(0, "<:x:>") == Some([])
  {
    var text := "<:x:>";
    forall i | 0 <= i < |text| ensures MatchPrefix(text[i..]).None? {
      if i == 0 {
        assert text[0..] == text;
        RunEndAt(text, 2, IsWordChar, 3);
        RunEndAt(text, 4, IsDigitChar, 4);
      } else {
        assert text[i..][0] != '<';
      }
    }
    PlainTextHasNoEmoji(0, text);
  }

  /** Leading zeros in an id are read past. */
  lemma LeadingZerosExample()
    ensures ParseEmojisFromString(0, "<:x:007>") == Some([Emoji(7, 0, "x", false)])
  {
    var digits := "007";
    ZeroPaddedSeven();
    var text := TokenText(false, "x", digits);
    ScanToken(0, false, "x", digits, "");
    assert Scan(0, text + "") == Prepend(Emoji(7, 0, "x", false), Scan(0, ""));
    assert Scan(0, "") == Some([]);
    assert [Emoji(7, 0, "x", false)] + [] == [Emoji(7, 0, "x", false)];
    assert text + "" == "<:x:007>";
  }

  lemma ZeroPaddedSeven()
    ensures Numerals.Value("007", Numerals.Decimal) == 7
  {
    var digits := "007";
    assert digits[..2][..1] == digits[..1] && digits[..1][..0] == "";
    assert Numerals.Value(digits[..1], Numerals.Decimal) == 0;
    assert Numerals.Value(digits[..2], Numerals.Decimal) == 0;
  }

  /** A rendered emoji put in front of rendered text is parsed in front of it. */
  lemma ParseRenderCons(guildId: u64, e: Emoji, es: seq<Emoji>)
    requires IsWord(e.name) && e.guildId == guildId && es != []
    requires Scan(guildId, RenderAll(es)) == Some(es)
    ensures Scan(guildId, RenderAll([e] + es)) == Some([e] + es)
  {
    var rest := RenderAll(es);
    assert ([e] + es)[1..] == es;
    assert RenderAll([e] + es) == Render(e) + (" " + rest);
    ScanRendered(guildId, e, " " + rest);
    ScanSkipsPlainText(guildId, " ", rest);
  }

  /** Rendering emojis and parsing the text gives them back, in order. */
  lemma {:induction false} ParseRenderAll(guildId: u64, es: seq<Emoji>)
    requires forall e :: e in es ==> IsWord(e.name) && e.guildId == guildId
    ensures ParseEmojisFromString(guildId, RenderAll(es)) == Some(es)
  {
    if |es| == 1 {
      ScanRendered(guildId, es[0], "");
      assert Render(es[0]) + "" == Render(es[0]);
      assert Scan(guildId, "") == Some([]);
      assert [es[0]] + [] == es;
    } else if |es| > 1 {
      ParseRenderAll(guildId, es[1..]);
      ParseRenderCons(guildId, es[0], es[1..]);
      assert [es[0]] + es[1..] == es;
    }
  }

  lemma ExampleRendering()
    ensures RenderAll([Emoji(0, 0, "animated", true), Emoji(1, 0, "static", false)])
      == "<a:animated:0> <:static:1>"
  {
    var a, b := Emoji(0, 0, "animated", true), Emoji(1, 0, "static", false);
    assert Numerals.Numeral(0, Numerals.Decimal) == "0" by {
      assert Numerals.DigitChar(0, Numerals.Decimal) == '0';
    }
    assert Numerals.Numeral(1, Numerals.Decimal) == "1" by {
      assert Numerals.DigitChar(1, Numerals.Decimal) == '1';
    }
    assert Render(a) == "<a:animated:0>";
    assert Render(b) == "<:static:1>";
    assert [a, b][1..] == [b];
  }

  /** An animated and a static emoji separated by a space. */
  lemma ParseExample()
    ensures ParseEmojisFromString(0, "<a:animated:0> <:static:1>")
      == Some([Emoji(0, 0, "animated", true), Emoji(1, 0, "static", false)])
  {
    var es := [Emoji(0, 0, "animated", true), Emoji(1, 0, "static", false)];
    ExampleRendering();
    assert IsWord(es[0].name) && IsWord(es[1].name);
    ParseRenderAll(0, es);
  }

  // ---------------------------------------------------------------------
  // Counting

  /**
   * How often each emoji occurs. The count type is 16-bit, so no emoji may
   * occur more than 32767 times.
   */
  ghost predicate CountsMatch(emojis: seq<Emoji>, counts: map<Emoji, i16>) {
    && (forall e :: e in counts <==> e in emojis)
    && (forall e :: e in counts ==> counts[e] as int == multiset(emojis)[e])
  }

  method CountEmojis(emojis: seq<Emoji>) returns (counts: map<Emoji, i16>)
    requires forall e :: e in emojis ==> multiset(emojis)[e] <= MaxI16
    ensures CountsMatch(emojis, counts)
    ensures forall e :: e in counts ==> 1 <= counts[e]
  {
    counts := map[];
    for i := 0 to |emojis|
      invariant forall e :: e in counts <==> e in emojis[..i]
      invariant forall e :: e in counts ==> counts[e] as int == multiset(emojis[..i])[e]
    {
      var e := emojis[i];
      assert emojis[..i + 1] == emojis[..i] + [e];
      if e in counts {
        assert e in emojis;
        PrefixMultiset(emojis, i + 1);
        counts := counts[e := counts[e] + 1];
      } else {
        counts := counts[e := 1];
      }
    }
    assert emojis[..|emojis|] == emojis;
  }

  lemma PrefixMultiset(s: seq<Emoji>, n: nat)
    requires n <= |s|
    ensures multiset(s[..n]) <= multiset(s)
  {
    assert s == s[..n] + s[n..];
  }

  /** The total of the counts of the listed keys. */
  function SumCounts(counts: map<Emoji, i16>, keys: seq<Emoji>): int
    requires forall k :: k in keys ==> k in counts
  {
    if keys == [] then 0 else counts[keys[0]] as int + SumCounts(counts, keys[1..])
  }

  /** The total of the multiplicities in `s` of the listed keys. */
  function Occurrences(s: seq<Emoji>, keys: seq<Emoji>): nat {
    if keys == [] then 0 else multiset(s)[keys[0]] + Occurrences(s, keys[1..])
  }

  lemma {:induction false} OccurrencesSnoc(s: seq<Emoji>, x: Emoji, keys: seq<Emoji>)
    requires NoDups(keys)
    ensures Occurrences(s + [x], keys) == Occurrences(s, keys) + if x in keys then 1 else 0
  {
    if keys != [] {
      assert NoDups(keys[1..]);
      OccurrencesSnoc(s, x, keys[1..]);
      assert x in keys <==> x == keys[0] || x in keys[1..];
      assert keys[0] !in keys[1..];
    }
  }

  /** Summed over keys that cover `s` once each, the multiplicities add up to its length. */
  lemma {:induction false} OccurrencesTotal(s: seq<Emoji>, keys: seq<Emoji>)
    requires NoDups(keys) && forall e :: e in s ==> e in keys
    ensures Occurrences(s, keys) == |s|
  {
    if s == [] {
      OccurrencesOfNothing(keys);
    } else {
      var init, last := s[..|s| - 1], s[|s| - 1];
      assert s == init + [last];
      OccurrencesTotal(init, keys);
      OccurrencesSnoc(init, last, keys);
    }
  }

  lemma {:induction false} OccurrencesOfNothing(keys: seq<Emoji>)
    ensures Occurrences([], keys) == 0
  {
    if keys != [] {
      OccurrencesOfNothing(keys[1..]);
    }
  }

  lemma {:induction false} SumIsOccurrences(s: seq<Emoji>, counts: map<Emoji, i16>, keys: seq<Emoji>)
    requires forall k :: k in keys ==> k in counts && counts[k] as int == multiset(s)[k]
    ensures SumCounts(counts, keys) == Occurrences(s, keys)
  {
    if keys != [] {
      SumIsOccurrences(s, counts, keys[1..]);
    }
  }

  /**
   * The counts sum to the number of emojis, whatever order the map's keys
   * are visited in.
   */
  lemma CountsSumToLength(emojis: seq<Emoji>, counts: map<Emoji, i16>, keys: seq<Emoji>)
    requires CountsMatch(emojis, counts)
    requires NoDups(keys) && forall e :: e in keys <==> e in counts
    ensures SumCounts(counts, keys) == |emojis|
  {
    SumIsOccurrences(emojis, counts, keys);
    OccurrencesTotal(emojis, keys);
  }

  /** The counts are determined by the list: two of one emoji and one of another. */
  lemma CountExample(counts: map<Emoji, i16>)
    requires CountsMatch([Emoji(0, 0, "foo", false), Emoji(0, 0, "foo", false), Emoji(1, 0, "foo", false)], counts)
    ensures counts == map[Emoji(0, 0, "foo", false) := 2, Emoji(1, 0, "foo", false) := 1]
  {
    var a, b := Emoji(0, 0, "foo", false), Emoji(1, 0, "foo", false);
    var s := [a, a, b];
    assert multiset(s)[a] == 2 && multiset(s)[b] == 1;
    assert a in s && b in s;
    assert counts.Keys == {a, b};
  }
}
