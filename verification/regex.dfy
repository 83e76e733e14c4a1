/** The simple regular expressions of the test framework: which patterns are
    valid, what language a valid pattern denotes, and the matcher. Strings are
    the characters before the terminating NUL. */
module Regexes {
  import opened Bytes

  // ---------------------------------------------------------------------
  // Characters

  predicate IsAsciiDigit(ch: char) {
    '0' <= ch <= '9'
  }

  predicate IsAsciiPunct(ch: char) {
    ch in "^-!\"#$%&'()*+,./:;<=>?@[\\]_`{|}~"
  }

  predicate IsRepeat(ch: char) {
    ch in "?*+"
  }

  const FORM_FEED := '\U{000C}'
  const VERTICAL_TAB := '\U{000B}'

  predicate IsAsciiWhiteSpace(ch: char) {
    ch == ' ' || ch == FORM_FEED || ch == '\n' || ch == '\r' || ch == '\t' || ch == VERTICAL_TAB
  }

  predicate IsAsciiWordChar(ch: char) {
    'a' <= ch <= 'z' || 'A' <= ch <= 'Z' || '0' <= ch <= '9' || ch == '_'
  }

  predicate IsValidEscape(c: char) {
    IsAsciiPunct(c) || c in "dDfnrsStvwW"
  }

  predicate AtomMatchesChar(escaped: bool, p: char, ch: char) {
    if escaped then
      match p
      case 'd' => IsAsciiDigit(ch)
      case 'D' => !IsAsciiDigit(ch)
      case 'f' => ch == FORM_FEED
      case 'n' => ch == '\n'
      case 'r' => ch == '\r'
      case 's' => IsAsciiWhiteSpace(ch)
      case 'S' => !IsAsciiWhiteSpace(ch)
      case 't' => ch == '\t'
      case 'v' => ch == VERTICAL_TAB
      case 'w' => IsAsciiWordChar(ch)
      case 'W' => !IsAsciiWordChar(ch)
      case _ => IsAsciiPunct(p) && p == ch
    else (p == '.' && ch != '\n') || p == ch
  }

  // ---------------------------------------------------------------------
  // Patterns and the language they denote

  datatype Atom = Atom(escaped: bool, c: char)

  datatype Rep = One | Opt | Star | Plus

  datatype Item = Item(atom: Atom, rep: Rep)

  datatype Pattern = Pattern(fromStart: bool, items: seq<Item>, toEnd: bool)

  predicate ValidAtom(a: Atom) {
    if a.escaped then IsValidEscape(a.c) else a.c !in "\\^$?*+()[]{}|"
  }

  predicate ValidItems(items: seq<Item>) {
    forall i | 0 <= i < |items| :: ValidAtom(items[i].atom)
  }

  function RepText(rep: Rep): string {
    match rep
    case One => ""
    case Opt => "?"
    case Star => "*"
    case Plus => "+"
  }

  function ItemText(item: Item): string {
    (if item.atom.escaped then ['\\', item.atom.c] else [item.atom.c]) + RepText(item.rep)
  }

  function TailText(items: seq<Item>, toEnd: bool): string {
    if items == [] then (if toEnd then "$" else "")
    else ItemText(items[0]) + TailText(items[1..], toEnd)
  }

  function Text(p: Pattern): string {
    (if p.fromStart then "^" else "") + TailText(p.items, p.toEnd)
  }

  predicate Counts(rep: Rep, n: nat) {
    match rep
    case One => n == 1
    case Opt => n <= 1
    case Star => true
    case Plus => n >= 1
  }

  ghost predicate AllMatch(a: Atom, s: string) {
    forall i | 0 <= i < |s| :: AtomMatchesChar(a.escaped, a.c, s[i])
  }

  ghost predicate ItemMatches(item: Item, s: string) {
    Counts(item.rep, |s|) && AllMatch(item.atom, s)
  }

  /** s is in the language of the items. */
  ghost predicate Denotes(items: seq<Item>, s: string) {
    if items == [] then s == ""
    else exists k :: 0 <= k <= |s| && ItemMatches(items[0], s[..k]) && Denotes(items[1..], s[k..])
  }

  /** Some prefix of s, all of it if anchored, is in the language. */
  ghost predicate AtHead(items: seq<Item>, toEnd: bool, s: string) {
    exists k :: 0 <= k <= |s| && Denotes(items, s[..k]) && (toEnd ==> k == |s|)
  }

  /** Some substring of s, placed as the anchors say, is in the language. */
  ghost predicate Anywhere(p: Pattern, s: string) {
    exists i, j :: 0 <= i <= j <= |s| && Denotes(p.items, s[i..j])
                   && (p.fromStart ==> i == 0) && (p.toEnd ==> j == |s|)
  }

  // ---------------------------------------------------------------------
  // What each atom matches, by character codes

  predicate CodeIn(ch: char, low: int, high: int) {
    low <= ch as int <= high
  }

  /** `\d` and `\D`: the ten digits, and all others. */
  lemma DigitsExactly(ch: char)
    ensures AtomMatchesChar(true, 'd', ch) <==> ch in "0123456789"
    ensures AtomMatchesChar(true, 'D', ch) <==> ch !in "0123456789"
  {
    assert ch in "0123456789" <==> CodeIn(ch, 48, 57);
  }

  /** `\s` and `\S`: tab, line feed, vertical tab, form feed, carriage return
      and blank, and all others. */
  lemma BlanksExactly(ch: char)
    ensures AtomMatchesChar(true, 's', ch) <==> CodeIn(ch, 9, 13) || ch as int == 32
    ensures AtomMatchesChar(true, 'S', ch) <==> !(CodeIn(ch, 9, 13) || ch as int == 32)
  {
  }

  /** `\w` and `\W`: digits, letters of either case and the underscore, and all
      others. */
  lemma WordCharsExactly(ch: char)
    ensures var word := CodeIn(ch, 48, 57) || CodeIn(ch, 65, 90) || CodeIn(ch, 97, 122) || ch as int == 95;
            && (AtomMatchesChar(true, 'w', ch) <==> word)
            && (AtomMatchesChar(true, 'W', ch) <==> !word)
  {
  }

  /** The escapes of control characters. */
  lemma ControlsExactly(ch: char)
    ensures AtomMatchesChar(true, 't', ch) <==> ch as int == 9
    ensures AtomMatchesChar(true, 'n', ch) <==> ch as int == 10
    ensures AtomMatchesChar(true, 'v', ch) <==> ch as int == 11
    ensures AtomMatchesChar(true, 'f', ch) <==> ch as int == 12
    ensures AtomMatchesChar(true, 'r', ch) <==> ch as int == 13
  {
  }

  /** Of the visible ASCII characters exactly those that are no word characters,
      and the underscore, are matched by their own escapes. */
  lemma PunctuationExactly(ch: char)
    requires CodeIn(ch, 33, 126)
    ensures AtomMatchesChar(true, ch, ch) && IsAsciiPunct(ch) <==> !AtomMatchesChar(true, 'w', ch) || ch == '_'
  {
    hide IsAsciiPunct;
    PunctCodes(ch);
    WordCharsExactly(ch);
  }

  lemma PunctCodes(ch: char)
    ensures IsAsciiPunct(ch)
            <==> CodeIn(ch, 33, 47) || CodeIn(ch, 58, 64) || CodeIn(ch, 91, 96) || CodeIn(ch, 123, 126)
  {
  }

  /** The escape of a character that names no class stands for itself, if it is
      punctuation, and otherwise for nothing. */
  lemma EscapesExactly(p: char, ch: char)
    requires p !in "dDfnrsStvwW"
    ensures AtomMatchesChar(true, p, ch) <==>
              p == ch && (CodeIn(p, 33, 47) || CodeIn(p, 58, 64) || CodeIn(p, 91, 96) || CodeIn(p, 123, 126))
  {
    hide IsAsciiPunct;
    PunctCodes(p);
  }

  /** A dot stands for any character but the line feed, any other unescaped
      character for itself. */
  lemma PlainExactly(p: char, ch: char)
    ensures AtomMatchesChar(false, '.', ch) <==> ch as int != 10
    ensures p != '.' ==> (AtomMatchesChar(false, p, ch) <==> p == ch)
  {
  }

  /** What may be escaped: punctuation and the letters of the classes. */
  lemma EscapableExactly(c: char)
    ensures IsValidEscape(c)
            <==> CodeIn(c, 33, 47) || CodeIn(c, 58, 64) || CodeIn(c, 91, 96) || CodeIn(c, 123, 126)
                 || c in "dDfnrsStvwW"
  {
    hide IsAsciiPunct;
    PunctCodes(c);
  }

  /** What the anchors demand of the part that matches. */
  lemma AnchorsHold(items: seq<Item>, s: string)
    ensures Anywhere(Pattern(true, items, true), s) <==> Denotes(items, s)
    ensures Anywhere(Pattern(true, items, false), s) <==> exists j :: 0 <= j <= |s| && Denotes(items, s[..j])
    ensures Anywhere(Pattern(false, items, true), s) <==> exists i :: 0 <= i <= |s| && Denotes(items, s[i..])
    ensures Anywhere(Pattern(false, items, false), s)
            <==> exists i, j :: 0 <= i <= j <= |s| && Denotes(items, s[i..j])
  {
    hide Denotes;
    assert s[0..|s|] == s;
    assert forall j | 0 <= j <= |s| :: s[0..j] == s[..j];
    assert forall i | 0 <= i <= |s| :: s[i..|s|] == s[i..];
  }

  /** What an atom followed by `?`, `*` or `+`, or by nothing, denotes. */
  lemma RepetitionsDenote(a: Atom, s: string)
    requires ValidAtom(a)
    ensures var text := if a.escaped then ['\\', a.c] else [a.c];
            && Text(Pattern(false, [Item(a, One)], false)) == text
            && Text(Pattern(false, [Item(a, Opt)], false)) == text + "?"
            && Text(Pattern(false, [Item(a, Star)], false)) == text + "*"
            && Text(Pattern(false, [Item(a, Plus)], false)) == text + "+"
    ensures Denotes([Item(a, One)], s) <==> |s| == 1 && AllMatch(a, s)
    ensures Denotes([Item(a, Opt)], s) <==> |s| <= 1 && AllMatch(a, s)
    ensures Denotes([Item(a, Star)], s) <==> AllMatch(a, s)
    ensures Denotes([Item(a, Plus)], s) <==> |s| >= 1 && AllMatch(a, s)
  {
    OneItemText(Item(a, One));
    OneItemText(Item(a, Opt));
    OneItemText(Item(a, Star));
    OneItemText(Item(a, Plus));
    OneItemDenotes(Item(a, One), s);
    OneItemDenotes(Item(a, Opt), s);
    OneItemDenotes(Item(a, Star), s);
    OneItemDenotes(Item(a, Plus), s);
    hide Denotes, AllMatch;
  }

  lemma OneItemText(item: Item)
    ensures Text(Pattern(false, [item], false)) == ItemText(item)
  {
    assert TailText([item], false) == ItemText(item) + TailText([], false);
  }

  lemma OneItemDenotes(item: Item, s: string)
    ensures Denotes([item], s) <==> ItemMatches(item, s)
  {
    hide ItemMatches;
    assert [item][1..] == [];
    assert s[..|s|] == s && s[|s|..] == "";
    if Denotes([item], s) {
      var k :| 0 <= k <= |s| && ItemMatches(item, s[..k]) && Denotes([item][1..], s[k..]);
      assert s[k..] == "";
    }
    if ItemMatches(item, s) {
      assert Denotes([item][1..], s[|s|..]);
    }
  }

  // ---------------------------------------------------------------------
  // Validation

  /** What the validating loop decides from a position on: `first` at the very
      beginning, `repeatable` after an atom that ?, * or + may follow. */
  predicate ValidFrom(s: string, first: bool, repeatable: bool) {
    if s == "" then true
    else if s[0] == '\\' then
      |s| >= 2 && IsValidEscape(s[1]) && ValidFrom(s[2..], false, true)
    else
      && !(s[0] == '^' && !first)
      && !(s[0] == '$' && |s| > 1)
      && s[0] !in "()[]{}|"
      && !(IsRepeat(s[0]) && !repeatable)
      && ValidFrom(s[1..], false, s[0] !in "^$?*+")
  }

  /** `ValidateRegex`; a NULL pattern is None. */
  method ValidateRegex(regex: Option<string>) returns (valid: bool)
    ensures valid <==> regex.Some? && ValidFrom(regex.value, true, false)
  {
    if regex.None? {
      return false;
    }
    var s := regex.value;
    valid := true;
    var repeatable := false;
    var i := 0;
    assert s[0..] == s;
    while i < |s|
      invariant 0 <= i <= |s|
      invariant ValidFrom(s, true, false) <==> valid && ValidFrom(s[i..], i == 0, repeatable)
      decreases |s| - i
    {
      ghost var rest := s[i..];
      if s[i] == '\\' {
        i := i + 1;
        if i == |s| {
          return false;
        }
        assert rest[1] == s[i] && rest[2..] == s[i + 1..];
        if !IsValidEscape(s[i]) {
          valid := false;
        }
        repeatable := true;
      } else {
        var ch := s[i];
        assert rest[1..] == s[i + 1..];
        if ch == '^' && i > 0 {
          valid := false;
        } else if ch == '$' && i + 1 < |s| {
          valid := false;
        } else if ch in "()[]{}|" {
          valid := false;
        } else if IsRepeat(ch) && !repeatable {
          valid := false;
        }
        repeatable := ch !in "^$?*+";
      }
      i := i + 1;
    }
  }

  function RepOf(ch: char): Rep {
    if ch == '?' then Opt else if ch == '*' then Star else if ch == '+' then Plus else One
  }

  lemma RepRead(ch: char)
    ensures RepText(One) == ""
    ensures IsRepeat(ch) ==> RepText(RepOf(ch)) == [ch]
  {
  }

  /** A valid tail begins with an item, unless it is empty or the end anchor. */
  lemma TailSplits(s: string) returns (item: Item, rest: string)
    requires ValidFrom(s, false, false) && s != "" && s != "$"
    ensures ValidAtom(item.atom) && ValidFrom(rest, false, false)
    ensures s == ItemText(item) + rest && |rest| < |s|
  {
    hide IsValidEscape, RepText, RepOf, ItemText;
    var n := if s[0] == '\\' then 2 else 1;
    var atom := Atom(s[0] == '\\', s[n - 1]);
    var rep := if |s| > n && IsRepeat(s[n]) then RepOf(s[n]) else One;
    RepRead(if |s| > n then s[n] else 'x');
    AtomRead(s, n, rep);
    if |s| > n && IsRepeat(s[n]) {
      rest := s[n + 1..];
      assert s[n..][1..] == rest;
      assert s == s[..n] + [s[n]] + rest;
    } else {
      rest := s[n..];
      assert s == s[..n] + "" + rest;
    }
    item := Item(atom, rep);
  }

  lemma AtomRead(s: string, n: nat, rep: Rep)
    requires s != "" && n == (if s[0] == '\\' then 2 else 1) && n <= |s|
    ensures ItemText(Item(Atom(s[0] == '\\', s[n - 1]), rep)) == s[..n] + RepText(rep)
  {
  }

  lemma {:induction false} ValidTailParses(s: string) returns (items: seq<Item>, toEnd: bool)
    requires ValidFrom(s, false, false)
    ensures ValidItems(items) && s == TailText(items, toEnd)
    decreases |s|
  {
    if s == "" || s == "$" {
      items, toEnd := [], s == "$";
    } else {
      hide ValidFrom, ItemText, ValidAtom;
      var item, rest := TailSplits(s);
      var more;
      more, toEnd := ValidTailParses(rest);
      items := [item] + more;
    }
  }

  lemma ItemThenValid(item: Item, rest: string)
    requires ValidAtom(item.atom) && ValidFrom(rest, false, false)
    ensures ValidFrom(ItemText(item) + rest, false, false)
    ensures ItemText(item) != "" && ItemText(item)[0] != '^'
  {
    hide IsValidEscape;
    var s := ItemText(item) + rest;
    var n := if item.atom.escaped then 2 else 1;
    NotRepeatFirst(rest);
    if item.rep.One? {
      assert s[n..] == rest;
    } else {
      assert s[n..] == RepText(item.rep) + rest;
      assert s[n..][1..] == rest;
    }
  }

  lemma NotRepeatFirst(s: string)
    requires ValidFrom(s, false, false)
    ensures ValidFrom(s, false, true)
  {
  }

  lemma {:induction false} ParsedTailValid(items: seq<Item>, toEnd: bool)
    requires ValidItems(items)
    ensures ValidFrom(TailText(items, toEnd), false, false)
    ensures TailText(items, toEnd) != "" ==> TailText(items, toEnd)[0] != '^'
  {
    if items != [] {
      ParsedTailValid(items[1..], toEnd);
      hide ValidFrom, ItemText, ValidAtom;
      ItemThenValid(items[0], TailText(items[1..], toEnd));
    }
  }

  /** The pattern that a valid text is. */
  ghost predicate Spells(s: string, p: Pattern) {
    ValidItems(p.items) && s == Text(p)
  }

  lemma ValidIsPattern(s: string) returns (p: Pattern)
    requires ValidFrom(s, true, false)
    ensures Spells(s, p)
  {
    if s != "" && s[0] == '^' {
      var items, toEnd := ValidTailParses(s[1..]);
      p := Pattern(true, items, toEnd);
    } else {
      FirstMattersOnlyForCaret(s);
      hide ValidFrom;
      var items, toEnd := ValidTailParses(s);
      p := Pattern(false, items, toEnd);
    }
  }

  lemma PatternIsValid(s: string, p: Pattern)
    requires Spells(s, p)
    ensures ValidFrom(s, true, false)
  {
    hide TailText;
    ParsedTailValid(p.items, p.toEnd);
    var tail := TailText(p.items, p.toEnd);
    if p.fromStart {
      assert s[1..] == tail;
    } else {
      assert s == tail;
      FirstMattersOnlyForCaret(s);
    }
  }

  /** The patterns of a single character, and those of a single escape. */
  lemma ShortPatterns(c: char)
    ensures ValidFrom([c], true, false) <==> c !in "\\?*+()[]{}|"
    ensures ValidFrom(['\\', c], true, false) <==> IsValidEscape(c)
  {
    hide IsValidEscape;
    assert [c][1..] == "" && ['\\', c][2..] == "";
  }

  /** Validation accepts exactly the texts of patterns of the grammar. */
  lemma ValidExactlyPatterns(s: string)
    ensures ValidFrom(s, true, false) <==> exists p :: Spells(s, p)
  {
    hide ValidFrom, Spells;
    if ValidFrom(s, true, false) {
      var p := ValidIsPattern(s);
    }
    if p :| Spells(s, p) {
      PatternIsValid(s, p);
    }
  }

  lemma FirstMattersOnlyForCaret(s: string)
    requires s != "" ==> s[0] != '^'
    ensures ValidFrom(s, true, false) <==> ValidFrom(s, false, false)
  {
  }

  // ---------------------------------------------------------------------
  // Matching at the head

  ghost predicate Repeats(item: Item, i: nat, s: string) {
    i <= |s| && Counts(item.rep, i) && AllMatch(item.atom, s[..i])
  }

  /** An item matches some number of leading characters, and the tail matches
      at the head of the rest. */
  lemma AtHeadItem(items: seq<Item>, toEnd: bool, s: string)
    requires items != []
    ensures AtHead(items, toEnd, s)
            <==> exists i: nat :: Repeats(items[0], i, s) && AtHead(items[1..], toEnd, s[i..])
  {
    hide AllMatch, Counts;
    if AtHead(items, toEnd, s) {
      var k :| 0 <= k <= |s| && Denotes(items, s[..k]) && (toEnd ==> k == |s|);
      var i: nat :| i <= k && ItemMatches(items[0], s[..k][..i]) && Denotes(items[1..], s[..k][i..]);
      assert s[..k][..i] == s[..i];
      assert s[i..][..k - i] == s[..k][i..];
      assert Repeats(items[0], i, s) && AtHead(items[1..], toEnd, s[i..]);
    }
    if i: nat :| Repeats(items[0], i, s) && AtHead(items[1..], toEnd, s[i..]) {
      AtHeadJoin(items, toEnd, s, i);
    }
  }

  lemma AtHeadJoin(items: seq<Item>, toEnd: bool, s: string, i: nat)
    requires items != [] && Repeats(items[0], i, s) && AtHead(items[1..], toEnd, s[i..])
    ensures AtHead(items, toEnd, s)
  {
    hide AllMatch, Counts;
    var m :| 0 <= m <= |s[i..]| && Denotes(items[1..], s[i..][..m]) && (toEnd ==> m == |s[i..]|);
    var t := s[..i + m];
    assert t[..i] == s[..i] && t[i..] == s[i..][..m];
    assert Denotes(items, t);
  }

  lemma AtHeadEmpty(toEnd: bool, s: string)
    ensures AtHead([], toEnd, s) <==> !toEnd || s == ""
  {
    assert Denotes([], s[..0]);
    assert s == "" ==> s[..0] == s;
  }

  lemma AtHeadSingle(items: seq<Item>, toEnd: bool, s: string)
    requires items != [] && items[0].rep.One?
    ensures var a := items[0].atom;
            AtHead(items, toEnd, s)
            <==> s != "" && AtomMatchesChar(a.escaped, a.c, s[0]) && AtHead(items[1..], toEnd, s[1..])
  {
    hide AtHead, AtomMatchesChar;
    AtHeadItem(items, toEnd, s);
    if s != "" {
      assert s[..1][0] == s[0];
      assert Repeats(items[0], 1, s) <==> AtomMatchesChar(items[0].atom.escaped, items[0].atom.c, s[0]);
    }
    assert forall i: nat :: Repeats(items[0], i, s) ==> i == 1;
  }

  lemma NoMoreRepeats(item: Item, i: nat, s: string)
    requires i <= |s|
    requires i == |s| || !AtomMatchesChar(item.atom.escaped, item.atom.c, s[i])
    ensures forall j: nat :: Repeats(item, j, s) ==> j <= i
  {
    hide AtomMatchesChar;
    forall j | i < j <= |s|
      ensures !AllMatch(item.atom, s[..j])
    {
      assert s[..j][i] == s[i];
    }
  }

  /** The matcher of a repeated atom followed by the rest of the pattern. The
      source's upper bound for * and + exceeds the length of any string. */
  method MatchRepetitionAndRegexAtHead(escaped: bool, c: char, repeat: char, regex: string, str: string,
                                       ghost items: seq<Item>, ghost toEnd: bool)
    returns (b: bool)
    requires IsRepeat(repeat) && ValidItems(items) && items != []
    requires items[0] == Item(Atom(escaped, c), RepOf(repeat)) && regex == TailText(items[1..], toEnd)
    ensures b <==> AtHead(items, toEnd, str)
    decreases |regex|, 1
  {
    hide AtHead, AtomMatchesChar, TailText, ValidAtom;
    AtHeadItem(items, toEnd, str);
    ghost var item, tail := items[0], items[1..];
    var minCount := if repeat == '+' then 1 else 0;
    var maxCount := if repeat == '?' then 1 else |str|;
    for i := 0 to maxCount + 1
      invariant i <= |str| && AllMatch(item.atom, str[..i])
      invariant forall j: nat | j < i :: Repeats(item, j, str) ==> !AtHead(tail, toEnd, str[j..])
    {
      if i >= minCount {
        var found := MatchRegexAtHead(regex, str[i..], tail, toEnd);
        if found {
          assert Repeats(item, i, str);
          return true;
        }
      }
      if i == |str| || !AtomMatchesChar(escaped, c, str[i]) {
        NoMoreRepeats(item, i, str);
        return false;
      }
      assert str[..i + 1] == str[..i] + [str[i]];
    }
    b := false;
  }

  /** A pattern tail, read one item at a time. */
  lemma TailReads(items: seq<Item>, toEnd: bool, regex: string)
    requires ValidItems(items) && regex == TailText(items, toEnd)
    ensures regex == "" <==> items == [] && !toEnd
    ensures items == [] && toEnd ==> regex == "$"
    ensures items != [] ==>
              var a, rest := items[0].atom, TailText(items[1..], toEnd);
              var r := if a.escaped then regex[1..] else regex;
              && regex != "" && regex[0] != '$' && (regex[0] == '\\' <==> a.escaped)
              && |r| > 0 && r[0] == a.c && ValidItems(items[1..])
              && (if items[0].rep.One? then r[1..] == rest && !(|r| > 1 && IsRepeat(r[1]))
                  else |r| > 1 && IsRepeat(r[1]) && RepOf(r[1]) == items[0].rep && r[2..] == rest)
  {
    if items != [] {
      hide IsValidEscape;
      var a, rest := items[0].atom, TailText(items[1..], toEnd);
      var r := if a.escaped then regex[1..] else regex;
      assert regex == ItemText(items[0]) + rest;
      assert r == [a.c] + (RepText(items[0].rep) + rest);
      hide TailText, ItemText;
      TailStart(items[1..], toEnd);
    }
  }

  lemma TailStart(items: seq<Item>, toEnd: bool)
    requires ValidItems(items)
    ensures TailText(items, toEnd) != "" ==> !IsRepeat(TailText(items, toEnd)[0])
  {
  }

  /** `MatchRegexAtHead` on the rest of a valid pattern: whether a prefix of
      the string is in its language. */
  method MatchRegexAtHead(regex: string, str: string, ghost items: seq<Item>, ghost toEnd: bool) returns (b: bool)
    requires ValidItems(items) && regex == TailText(items, toEnd)
    ensures b <==> AtHead(items, toEnd, str)
    decreases |regex|, 0
  {
    TailReads(items, toEnd, regex);
    hide AtHead, AtomMatchesChar, TailText, ValidAtom, IsRepeat;
    if regex == "" {
      AtHeadEmpty(toEnd, str);
      return true;
    }
    if regex[0] == '$' {
      AtHeadEmpty(toEnd, str);
      return str == "";
    }
    var escaped := regex[0] == '\\';
    var r := if escaped then regex[1..] else regex;
    if |r| > 1 && IsRepeat(r[1]) {
      b := MatchRepetitionAndRegexAtHead(escaped, r[0], r[1], r[2..], str, items, toEnd);
    } else {
      AtHeadSingle(items, toEnd, str);
      if str == "" || !AtomMatchesChar(escaped, r[0], str[0]) {
        return false;
      }
      b := MatchRegexAtHead(r[1..], str[1..], items[1..], toEnd);
    }
  }

  // ---------------------------------------------------------------------
  // Matching anywhere

  lemma AnywhereFrom(p: Pattern, s: string)
    ensures Anywhere(p, s) <==> exists i :: 0 <= i <= |s| && AtHead(p.items, p.toEnd, s[i..]) && (p.fromStart ==> i == 0)
  {
    hide Denotes;
    if Anywhere(p, s) {
      var i, j :| 0 <= i <= j <= |s| && Denotes(p.items, s[i..j]) && (p.fromStart ==> i == 0) && (p.toEnd ==> j == |s|);
      assert s[i..][..j - i] == s[i..j];
      assert AtHead(p.items, p.toEnd, s[i..]);
    }
    if i :| 0 <= i <= |s| && AtHead(p.items, p.toEnd, s[i..]) && (p.fromStart ==> i == 0) {
      var k :| 0 <= k <= |s[i..]| && Denotes(p.items, s[i..][..k]) && (p.toEnd ==> k == |s[i..]|);
      assert s[i..][..k] == s[i..i + k];
    }
  }

  /** The matcher is sound and complete: for every valid pattern and string it
      answers whether a substring, placed as the anchors say, is in the language
      of the pattern. NULL arguments are None. */
  method MatchRegexAnywhere(regex: Option<string>, str: Option<string>, ghost p: Pattern) returns (b: bool)
    requires regex.Some? ==> Spells(regex.value, p)
    ensures b <==> regex.Some? && str.Some? && Anywhere(p, str.value)
  {
    if regex.None? || str.None? {
      return false;
    }
    var r, s := regex.value, str.value;
    AnywhereFrom(p, s);
    ParsedTailValid(p.items, p.toEnd);
    hide Anywhere, AtHead, ValidFrom, TailText, ValidAtom;
    if r != "" && r[0] == '^' {
      assert r[1..] == TailText(p.items, p.toEnd) && s[0..] == s;
      b := MatchRegexAtHead(r[1..], s, p.items, p.toEnd);
      return;
    }
    var i := 0;
    while true
      invariant 0 <= i <= |s|
      invariant forall j | 0 <= j < i :: !AtHead(p.items, p.toEnd, s[j..])
      decreases |s| - i
    {
      var found := MatchRegexAtHead(r, s[i..], p.items, p.toEnd);
      if found {
        return true;
      }
      if i == |s| {
        break;
      }
      i := i + 1;
    }
    b := false;
  }

  // ---------------------------------------------------------------------
  // Full and partial matches

  /** The text that `Init` builds for a full match. */
  function FullText(regex: string): string {
    (if regex == "" || regex[0] != '^' then "^" else "") + regex
    + (if regex == "" || regex[|regex| - 1] != '$' then "$" else "")
  }

  /** The pattern ends in an escaped dollar sign: its last character is `$`
      though it has no end anchor. */
  predicate EndsInEscapedDollar(p: Pattern) {
    !p.toEnd && p.items != [] && p.items[|p.items| - 1] == Item(Atom(true, '$'), One)
  }

  lemma ItemLast(item: Item)
    requires ValidAtom(item.atom)
    ensures var t := ItemText(item);
            t != "" && (t[|t| - 1] == '$' <==> item == Item(Atom(true, '$'), One))
  {
  }

  lemma {:induction false} TailLast(items: seq<Item>, toEnd: bool)
    requires ValidItems(items)
    ensures var t := TailText(items, toEnd);
            t != "" ==> (t[|t| - 1] == '$' <==> toEnd || EndsInEscapedDollar(Pattern(false, items, toEnd)))
    ensures TailText(items, toEnd) == "" <==> items == [] && !toEnd
  {
    if items != [] {
      hide ItemText, ValidAtom;
      TailLast(items[1..], toEnd);
      ItemLast(items[0]);
      var rest := TailText(items[1..], toEnd);
      if rest == "" {
        assert TailText(items, toEnd) == ItemText(items[0]);
      }
    }
  }

  lemma {:induction false} TailAnchored(items: seq<Item>)
    ensures TailText(items, true) == TailText(items, false) + "$"
  {
    hide ItemText;
    if items != [] {
      TailAnchored(items[1..]);
    }
  }

  /** `Init` makes the anchored pattern, except that it takes an escaped `$` at
      the end for the anchor. */
  lemma FullTextSpells(s: string, p: Pattern)
    requires Spells(s, p)
    ensures Spells(FullText(s), Pattern(true, p.items, !EndsInEscapedDollar(p)))
  {
    TailLast(p.items, p.toEnd);
    TailAnchored(p.items);
    ParsedTailValid(p.items, p.toEnd);
    FullTextOf(s, p.fromStart, TailText(p.items, p.toEnd));
  }

  lemma FullTextOf(s: string, fromStart: bool, tail: string)
    requires s == (if fromStart then "^" else "") + tail
    requires tail != "" ==> tail[0] != '^'
    ensures FullText(s) == "^" + (tail + if tail == "" || tail[|tail| - 1] != '$' then "$" else "")
  {
    if fromStart {
      assert s[|s| - 1] == if tail == "" then '^' else tail[|tail| - 1];
    } else {
      assert s == tail;
    }
  }

  class RE {
    var pattern: Option<string>
    var fullPattern: Option<string>
    var isValid: bool
    ghost var spelled: Pattern

    ghost predicate Valid()
      reads this
    {
      isValid ==>
        && pattern.Some? && Spells(pattern.value, spelled)
        && fullPattern == Some(FullText(pattern.value))
    }

    /** `Init`. */
    constructor (regex: Option<string>)
      ensures Valid() && pattern == regex
      ensures isValid <==> regex.Some? && exists p :: Spells(regex.value, p)
    {
      pattern, fullPattern := regex, None;
      isValid := false;
      new;
      isValid := ValidateRegex(regex);
      if isValid {
        ValidExactlyPatterns(regex.value);
        ghost var p :| Spells(regex.value, p);
        spelled := p;
        fullPattern := Some(FullText(regex.value));
      } else if regex.Some? {
        ValidExactlyPatterns(regex.value);
      }
    }

    method PartialMatch(str: string) returns (b: bool)
      requires Valid()
      ensures b <==> isValid && Anywhere(spelled, str)
    {
      if !isValid {
        return false;
      }
      b := MatchRegexAnywhere(pattern, Some(str), spelled);
    }

    method FullMatch(str: string) returns (b: bool)
      requires Valid()
      ensures b <==> isValid && FullMatches(spelled, str)
    {
      if !isValid {
        return false;
      }
      FullTextSpells(pattern.value, spelled);
      b := MatchRegexAnywhere(fullPattern, Some(str), Pattern(true, spelled.items, !EndsInEscapedDollar(spelled)));
    }
  }

  /** What a full match means for a pattern. */
  ghost predicate FullMatches(p: Pattern, s: string) {
    Anywhere(Pattern(true, p.items, !EndsInEscapedDollar(p)), s)
  }

  function SampleChar(a: Atom): char {
    if !a.escaped then a.c
    else
      match a.c
      case 'd' => '0'
      case 'D' => 'a'
      case 'f' => FORM_FEED
      case 'n' => '\n'
      case 'r' => '\r'
      case 's' => ' '
      case 'S' => 'a'
      case 't' => '\t'
      case 'v' => VERTICAL_TAB
      case 'w' => 'a'
      case 'W' => ' '
      case c => c
  }

  lemma SampleMatches(a: Atom)
    requires ValidAtom(a)
    ensures AtomMatchesChar(a.escaped, a.c, SampleChar(a))
  {
  }

  function SampleText(items: seq<Item>): string {
    if items == [] then "" else [SampleChar(items[0].atom)] + SampleText(items[1..])
  }

  /** The language of every valid pattern has a member. */
  lemma {:induction false} SampleDenoted(items: seq<Item>)
    requires ValidItems(items)
    ensures Denotes(items, SampleText(items))
  {
    if items != [] {
      SampleDenoted(items[1..]);
      SampleMatches(items[0].atom);
      var s := SampleText(items);
      assert s[..1] == [SampleChar(items[0].atom)] && s[1..] == SampleText(items[1..]);
      assert ItemMatches(items[0], s[..1]);
    }
  }

  lemma {:induction false} LastCharMatches(items: seq<Item>, s: string)
    requires items != [] && items[|items| - 1].rep.One? && Denotes(items, s)
    ensures s != ""
    ensures var a := items[|items| - 1].atom; AtomMatchesChar(a.escaped, a.c, s[|s| - 1])
  {
    var k :| 0 <= k <= |s| && ItemMatches(items[0], s[..k]) && Denotes(items[1..], s[k..]);
    if |items| > 1 {
      LastCharMatches(items[1..], s[k..]);
    }
  }

  /** A full match means that the whole string is in the language for exactly
      the patterns that do not end in an escaped dollar sign. */
  lemma FullMatchExactlyWhen(p: Pattern)
    requires ValidItems(p.items)
    ensures (forall s :: FullMatches(p, s) <==> Denotes(p.items, s)) <==> !EndsInEscapedDollar(p)
  {
    if EndsInEscapedDollar(p) {
      var t := SampleText(p.items);
      var s := t + "x";
      SampleDenoted(p.items);
      assert s[0..|t|] == t;
      assert FullMatches(p, s);
      if Denotes(p.items, s) {
        LastCharMatches(p.items, s);
        assert false;
      }
    } else {
      forall s
        ensures FullMatches(p, s) <==> Denotes(p.items, s)
      {
        assert s[0..|s|] == s;
      }
    }
  }

  /** The pattern `\$` fully matches the string `$x`, which is not in its
      language. */
  lemma EscapedDollarOvermatches()
    ensures var p := Pattern(false, [Item(Atom(true, '$'), One)], false);
            && Spells("\\$", p) && FullText("\\$") == "^\\$"
            && FullMatches(p, "$x") && !Denotes(p.items, "$x")
  {
    var items := [Item(Atom(true, '$'), One)];
    assert TailText(items, false) == ItemText(items[0]) + TailText([], false);
    DollarDenoted(items);
    if Denotes(items, "$x") {
      hide Denotes, Anywhere, Spells, FullText;
      LastCharMatches(items, "$x");
      assert false;
    }
  }

  lemma DollarDenoted(items: seq<Item>)
    requires items == [Item(Atom(true, '$'), One)]
    ensures Denotes(items, "$x"[0..1])
  {
    assert "$x"[0..1] == "$" && "$"[..1] == "$" && "$"[1..] == "";
    assert ItemMatches(items[0], "$"[..1]) && Denotes(items[1..], "$"[1..]);
  }
}
