/**
 * The text normalizer run before conversion: a table of character replacements followed by
 * Unicode decomposition, list spacing, line-break clean-up and special-symbol replacement.
 * Regular expressions are modelled as left-to-right scanners that try each position in
 * turn and continue after a match, as `re.sub` does.
 */
module TextNormalizer {
  import opened PyStr

  // ---------------------------------------------------------------- replacement tables

  /** Pairs of (character, replacement), in the order they are applied. */
  type Table = seq<(char, string)>

  lemma {:induction false} ReplaceCharConcat(a: string, b: string, c: char, r: string)
    ensures ReplaceChar(a + b, c, r) == ReplaceChar(a, c, r) + ReplaceChar(b, c, r)
    decreases |a|
  {
    if a != [] {
      var x, rest := a[0], a[1..];
      var head := if x == c then r else [x];
      assert a == [x] + rest;
      assert a + b == [x] + (rest + b);
      ReplaceCharCons(x, rest + b, c, r);
      ReplaceCharCons(x, rest, c, r);
      ReplaceCharConcat(rest, b, c, r);
      assert head + (ReplaceChar(rest, c, r) + ReplaceChar(b, c, r))
          == (head + ReplaceChar(rest, c, r)) + ReplaceChar(b, c, r);
    } else {
      assert a + b == b;
    }
  }

  lemma ReplaceCharCons(x: char, s: string, c: char, r: string)
    ensures ReplaceChar([x] + s, c, r) == (if x == c then r else [x]) + ReplaceChar(s, c, r)
  {
    assert ([x] + s)[1..] == s;
  }

  predicate HasKey(t: Table, ch: char)
  {
    exists j :: 0 <= j < |t| && t[j].0 == ch
  }

  /** What the table makes of one character: the replacement of its first entry, or itself. */
  function Lookup(t: Table, ch: char): (r: string)
    ensures !HasKey(t, ch) ==> r == [ch]
    ensures HasKey(t, ch) ==> exists j :: 0 <= j < |t| && t[j].0 == ch && r == t[j].1
    decreases |t|
  {
    if t == [] then [ch]
    else
      var p := t[..|t| - 1];
      if HasKey(p, ch) then
        var r := Lookup(p, ch);
        assert exists j :: 0 <= j < |t| && t[j].0 == ch && r == t[j].1 by {
          var j :| 0 <= j < |p| && p[j].0 == ch && r == p[j].1;
          assert t[j] == p[j];
        }
        r
      else if t[|t| - 1].0 == ch then t[|t| - 1].1
      else
        [ch]
  }

  /** Each character replaced by what the table makes of it. */
  function MapChars(t: Table, s: string): (r: string)
    decreases |s|
  {
    if s == [] then [] else Lookup(t, s[0]) + MapChars(t, s[1..])
  }

  /**
   * No replacement contains any key.  (Keys need not be distinct for the results below: a
   * repeated key finds nothing left to replace.)
   */
  predicate WellFormed(t: Table)
  {
    forall i, j :: 0 <= i < |t| && 0 <= j < |t| ==> t[j].0 !in t[i].1
  }

  /** Applying one more entry to the mapped text extends the map by that entry. */
  lemma {:induction false} MapCharsStep(t: Table, i: nat, s: string)
    requires WellFormed(t) && i < |t|
    ensures ReplaceChar(MapChars(t[..i], s), t[i].0, t[i].1) == MapChars(t[..i + 1], s)
    decreases |s|
  {
    if s != [] {
      MapCharsStep(t, i, s[1..]);
      ReplaceCharConcat(Lookup(t[..i], s[0]), MapChars(t[..i], s[1..]), t[i].0, t[i].1);
      LookupStep(t, i, s[0]);
    }
  }

  lemma LookupStep(t: Table, i: nat, ch: char)
    requires WellFormed(t) && i < |t|
    ensures ReplaceChar(Lookup(t[..i], ch), t[i].0, t[i].1) == Lookup(t[..i + 1], ch)
  {
    var p, q := t[..i], t[..i + 1];
    assert q[..|q| - 1] == p;
    if HasKey(p, ch) {
      var j :| 0 <= j < |p| && p[j].0 == ch && Lookup(p, ch) == p[j].1;
      assert p[j] == t[j];
      assert t[i].0 !in t[j].1;
      ReplaceCharRemoves(p[j].1, t[i].0, t[i].1);
    } else {
      ReplaceCharRemoves([ch], t[i].0, t[i].1);
    }
  }

  /** Replacing the entries one after another, in table order. */
  function ApplyTable(t: Table, s: string): string
    decreases |t|
  {
    if t == [] then s else ReplaceChar(ApplyTable(t[..|t| - 1], s), t[|t| - 1].0, t[|t| - 1].1)
  }

  /** For a well-formed table the order of the replacements does not matter: it is a per-character map. */
  lemma {:induction false} ApplyTableIsMap(t: Table, s: string)
    requires WellFormed(t)
    ensures ApplyTable(t, s) == MapChars(t, s)
    decreases |t|
  {
    if t == [] {
      MapCharsEmpty(s);
    } else {
      var p := t[..|t| - 1];
      assert WellFormed(p);
      ApplyTableIsMap(p, s);
      MapCharsStep(t, |t| - 1, s);
      assert t[..|t|] == t;
    }
  }

  lemma {:induction false} MapCharsEmpty(s: string)
    ensures MapChars([], s) == s
    decreases |s|
  {
    if s != [] {
      MapCharsEmpty(s[1..]);
    }
  }

  /** No key survives the map of a well-formed table. */
  lemma {:induction false} MapCharsRemovesKeys(t: Table, s: string, j: nat)
    requires WellFormed(t) && j < |t|
    ensures t[j].0 !in MapChars(t, s)
    decreases |s|
  {
    if s != [] {
      MapCharsRemovesKeys(t, s[1..], j);
      if s[0] == t[j].0 {
        assert HasKey(t, s[0]);
      }
    }
  }

  /** Characters that are not keys pass through unchanged. */
  lemma {:induction false} MapCharsKeepsOthers(t: Table, s: string)
    requires forall k :: 0 <= k < |s| ==> !HasKey(t, s[k])
    ensures MapChars(t, s) == s
    decreases |s|
  {
    if s != [] {
      MapCharsKeepsOthers(t, s[1..]);
    }
  }

  /** Replacement text made only of printable ASCII and line feeds. */
  predicate PlainText(r: string)
  {
    forall k :: 0 <= k < |r| ==> r[k] == '\n' || (' ' <= r[k] <= '~')
  }

  /** Keys that can never occur in plain text: tab, or beyond ASCII. */
  predicate SpecialKey(c: char)
  {
    c == '\t' || c > '~'
  }

  /** Every key is special and every replacement plain. */
  predicate PlainTable(t: Table)
  {
    forall i :: 0 <= i < |t| ==> SpecialKey(t[i].0) && PlainText(t[i].1)
  }

  /** Special keys with plain replacements make a well-formed table. */
  lemma PlainTableWellFormed(t: Table)
    requires PlainTable(t)
    ensures WellFormed(t)
  {
  }

  lemma PlainTableConcat(a: Table, b: Table)
    requires PlainTable(a) && PlainTable(b)
    ensures PlainTable(a + b)
  {
    forall i | 0 <= i < |a + b| ensures SpecialKey((a + b)[i].0) && PlainText((a + b)[i].1) {
      if i >= |a| {
        assert (a + b)[i] == b[i - |a|];
      }
    }
  }

  // ---------------------------------------------------------------- normalize_unicode

  /** No-break spaces and the word joiner. */
  const NoBreakSpaces: Table := [('\U{A0}', " "), ('\U{202F}', " "), ('\U{2007}', " "), ('\U{2060}', "")]
  /** Dashes and the minus sign. */
  const Dashes: Table := [('\U{2013}', "--"), ('\U{2014}', "---"), ('\U{2015}', "---"), ('\U{2212}', "-")]
  /** Single and double quotation marks and primes. */
  const Quotes: Table := [
    ('\U{2018}', "'"), ('\U{2019}', "'"), ('\U{201A}', "'"), ('\U{201B}', "'"),
    ('\U{201C}', "\""), ('\U{201D}', "\""), ('\U{201E}', "\""), ('\U{201F}', "\""),
    ('\U{2032}', "'"), ('\U{2033}', "\"")
  ]
  /** The ellipsis and the bullets. */
  const Bullets: Table := [('\U{2026}', "..."), ('\U{2022}', "-"), ('\U{2023}', ">"), ('\U{2043}', "-")]
  /** Line and paragraph separators, the tab, the soft hyphen and the byte order mark. */
  const Separators: Table := [('\U{2028}', "\n"), ('\U{2029}', "\n\n"), ('\t', "    "), ('\U{AD}', ""), ('\U{FEFF}', "")]

  /** The replacement table of the normalizer, in its declaration order. */
  const Replacements: Table := NoBreakSpaces + Dashes + Quotes + Bullets + Separators

  lemma ReplacementsWellFormed()
    ensures WellFormed(Replacements)
    ensures DistinctKeys(Replacements)
  {
    ReplacementsPlain();
    PlainTableWellFormed(Replacements);
    ReplacementKeysDistinct();
  }

  /** No key of `a` is a key of `b`. */
  predicate KeysApart(a: Table, b: Table)
  {
    forall i, j :: 0 <= i < |a| && 0 <= j < |b| ==> a[i].0 != b[j].0
  }

  /** A table apart from two tables is apart from their concatenation. */
  lemma ApartConcat(a: Table, b: Table, c: Table)
    requires KeysApart(a, c) && KeysApart(b, c)
    ensures KeysApart(a + b, c)
  {
    forall i, j | 0 <= i < |a + b| && 0 <= j < |c| ensures (a + b)[i].0 != c[j].0 {
      if i >= |a| {
        assert (a + b)[i] == b[i - |a|];
      }
    }
  }

  /** Two tables with distinct keys and no key in common join into one with distinct keys. */
  lemma DistinctConcat(a: Table, b: Table)
    requires DistinctKeys(a) && DistinctKeys(b) && KeysApart(a, b)
    ensures DistinctKeys(a + b)
  {
    forall i, j | 0 <= i < j < |a + b| ensures (a + b)[i].0 != (a + b)[j].0 {
      if j < |a| {
        assert (a + b)[i] == a[i] && (a + b)[j] == a[j];
      } else if i < |a| {
        assert (a + b)[i] == a[i] && (a + b)[j] == b[j - |a|];
      } else {
        assert (a + b)[i] == b[i - |a|] && (a + b)[j] == b[j - |a|];
      }
    }
  }

  /** Within each group of the table no character is listed twice. */
  lemma GroupsDistinct()
    ensures DistinctKeys(NoBreakSpaces) && DistinctKeys(Dashes) && DistinctKeys(Quotes)
    ensures DistinctKeys(Bullets) && DistinctKeys(Separators)
  {
  }

  /** The first four groups share no character. */
  lemma GroupsApart()
    ensures KeysApart(NoBreakSpaces, Dashes)
    ensures KeysApart(NoBreakSpaces, Quotes) && KeysApart(Dashes, Quotes)
    ensures KeysApart(NoBreakSpaces, Bullets) && KeysApart(Dashes, Bullets) && KeysApart(Quotes, Bullets)
  {
  }

  /** No separator character is listed in another group. */
  lemma SeparatorsApart()
    ensures KeysApart(NoBreakSpaces, Separators) && KeysApart(Dashes, Separators)
    ensures KeysApart(Quotes, Separators) && KeysApart(Bullets, Separators)
  {
  }

  /** The normalizer's table is a dictionary: no character is listed twice. */
  lemma ReplacementKeysDistinct()
    ensures DistinctKeys(Replacements)
  {
    var a, b, c, d, e := NoBreakSpaces, Dashes, Quotes, Bullets, Separators;
    GroupsDistinct();
    GroupsApart();
    SeparatorsApart();
    DistinctConcat(a, b);
    ApartConcat(a, b, c);
    DistinctConcat(a + b, c);
    ApartConcat(a, b, d);
    ApartConcat(a + b, c, d);
    DistinctConcat(a + b + c, d);
    ApartConcat(a, b, e);
    ApartConcat(a + b, c, e);
    ApartConcat(a + b + c, d, e);
    DistinctConcat(a + b + c + d, e);
  }

  lemma ReplacementsPlain()
    ensures PlainTable(Replacements)
  {
    NoBreakSpacesPlain();
    DashesPlain();
    QuotesPlain();
    BulletsPlain();
    SeparatorsPlain();
    PlainTableConcat(NoBreakSpaces, Dashes);
    PlainTableConcat(NoBreakSpaces + Dashes, Quotes);
    PlainTableConcat(NoBreakSpaces + Dashes + Quotes, Bullets);
    PlainTableConcat(NoBreakSpaces + Dashes + Quotes + Bullets, Separators);
  }

  lemma NoBreakSpacesPlain() ensures PlainTable(NoBreakSpaces) {}
  lemma DashesPlain() ensures PlainTable(Dashes) {}
  lemma QuotesPlain() ensures PlainTable(Quotes) {}
  lemma BulletsPlain() ensures PlainTable(Bullets) {}
  lemma SeparatorsPlain() ensures PlainTable(Separators) {}

  /** The replacement loop of `normalize_unicode`: each entry's `replace`, in table order. */
  method ApplyReplacements(text: string) returns (out: string)
    ensures out == MapChars(Replacements, text)
  {
    ReplacementsWellFormed();
    MapCharsEmpty(text);
    assert Replacements[..0] == [];
    out := text;
    var i := 0;
    while i < |Replacements|
      invariant 0 <= i <= |Replacements|
      invariant out == MapChars(Replacements[..i], text)
    {
      MapCharsStep(Replacements, i, text);
      out := ReplaceChar(out, Replacements[i].0, Replacements[i].1);
      i := i + 1;
    }
    assert Replacements[..|Replacements|] == Replacements;
  }

  /** After the replacement step none of the table's characters is left. */
  lemma ReplacementsRemoveKeys(text: string, j: nat)
    requires j < |Replacements|
    ensures Replacements[j].0 !in MapChars(Replacements, text)
  {
    ReplacementsWellFormed();
    MapCharsRemovesKeys(Replacements, text, j);
  }

  /** The characters for which the combining-mark test is false, in order. */
  function DropCombining(s: string, isCombining: char -> bool): (r: string)
    ensures |r| <= |s|
    ensures forall k :: 0 <= k < |r| ==> !isCombining(r[k]) && r[k] in s
    ensures (forall k :: 0 <= k < |s| ==> !isCombining(s[k])) ==> r == s
    decreases |s|
  {
    if s == [] then []
    else
      var rest := DropCombining(s[1..], isCombining);
      if isCombining(s[0]) then rest else [s[0]] + rest
  }

  /**
   * `normalize_unicode`: the replacement table, then NFKD decomposition and the removal of
   * combining marks.  Decomposition and the combining-mark test are Unicode database
   * functions and are given as parameters.
   */
  method NormalizeUnicode(text: string, nfkd: string -> string, isCombining: char -> bool) returns (out: string)
    ensures out == DropCombining(nfkd(MapChars(Replacements, text)), isCombining)
  {
    var replaced := ApplyReplacements(text);
    out := DropCombining(nfkd(replaced), isCombining);
  }

  // ---------------------------------------------------------------- fix_list_formatting

  /** `[a-z.:,;]`: what may end a line that a list follows. */
  predicate ListLead(c: char)
  {
    ('a' <= c <= 'z') || c == '.' || c == ':' || c == ',' || c == ';'
  }

  /** `[-*+]`. */
  predicate Bullet(c: char)
  {
    c == '-' || c == '*' || c == '+'
  }

  /** A list item that follows a line ending in `[a-z.:,;]` with no blank line in between, at `i`. */
  predicate TightListAt(s: string, i: nat)
  {
    i + 3 < |s| && ListLead(s[i]) && s[i + 1] == '\n' && Bullet(s[i + 2]) && IsSpace(s[i + 3])
  }

  predicate NoTightList(s: string)
  {
    forall i :: 0 <= i < |s| ==> !TightListAt(s, i)
  }

  /** `re.sub(r'\n([^\n])', r'\n\1', text)`: each match is replaced by itself. */
  function KeepParagraphs(s: string): string
    decreases |s|
  {
    if |s| >= 2 && s[0] == '\n' && s[1] != '\n' then ['\n', s[1]] + KeepParagraphs(s[2..])
    else if s == [] then []
    else [s[0]] + KeepParagraphs(s[1..])
  }

  lemma {:induction false} KeepParagraphsIdentity(s: string)
    ensures KeepParagraphs(s) == s
    decreases |s|
  {
    if |s| >= 2 && s[0] == '\n' && s[1] != '\n' {
      KeepParagraphsIdentity(s[2..]);
      assert s == [s[0], s[1]] + s[2..];
    } else if s != [] {
      KeepParagraphsIdentity(s[1..]);
      assert s == [s[0]] + s[1..];
    }
  }

  /** `re.sub(r'([a-z.:,;])\n([-*+]\s)', r'\1\n\n\2', text)`. */
  function SpaceLists(s: string): string
    decreases |s|
  {
    if TightListAt(s, 0) then [s[0], '\n', '\n', s[2], s[3]] + SpaceLists(s[4..])
    else if s == [] then []
    else [s[0]] + SpaceLists(s[1..])
  }

  /** `re.sub(r':\n([-*+]\s)', r':\n\n\1', text)`. */
  function SpaceColonLists(s: string): string
    decreases |s|
  {
    if |s| >= 4 && s[0] == ':' && s[1] == '\n' && Bullet(s[2]) && IsSpace(s[3]) then
      [':', '\n', '\n', s[2], s[3]] + SpaceColonLists(s[4..])
    else if s == [] then []
    else [s[0]] + SpaceColonLists(s[1..])
  }

  /** `fix_list_formatting`: the three substitutions in order. */
  function FixListFormatting(s: string): (r: string)
    ensures InsertsNewlines(s, r) && NoTightList(r)
  {
    KeepParagraphsIdentity(s);
    SpaceListsNoTight(s);
    SpaceColonListsIdentity(SpaceLists(s));
    SpaceListsInserts(s);
    SpaceColonLists(SpaceLists(KeepParagraphs(s)))
  }

  /** `t` is `s` with zero or more line feeds inserted. */
  predicate InsertsNewlines(s: string, t: string)
    decreases |t|
  {
    if t == [] then s == []
    else (s != [] && s[0] == t[0] && InsertsNewlines(s[1..], t[1..])) ||
         (t[0] == '\n' && InsertsNewlines(s, t[1..]))
  }

  lemma {:induction false} InsertsNewlinesPrefix(p: string, s: string, t: string)
    requires InsertsNewlines(s, t)
    ensures InsertsNewlines(p + s, p + t)
    decreases |p|
  {
    if p != [] {
      InsertsNewlinesPrefix(p[1..], s, t);
      assert (p + s)[0] == (p + t)[0] == p[0];
      assert (p + s)[1..] == p[1..] + s && (p + t)[1..] == p[1..] + t;
    } else {
      assert p + s == s && p + t == t;
    }
  }

  lemma {:induction false} InsertsNewlinesRefl(s: string)
    ensures InsertsNewlines(s, s)
    decreases |s|
  {
    if s != [] {
      InsertsNewlinesRefl(s[1..]);
    }
  }

  /** The list substitution only inserts line feeds. */
  lemma {:induction false} SpaceListsInserts(s: string)
    ensures InsertsNewlines(s, SpaceLists(s))
    decreases |s|
  {
    if TightListAt(s, 0) {
      var rest := SpaceLists(s[4..]);
      SpaceListsInserts(s[4..]);
      InsertsNewlinesPrefix([s[2], s[3]], s[4..], rest);
      var mid := [s[2], s[3]] + rest;
      assert InsertsNewlines([s[2], s[3]] + s[4..], ['\n'] + mid);
      InsertsNewlinesPrefix([s[0], '\n'], [s[2], s[3]] + s[4..], ['\n'] + mid);
      assert s == [s[0], '\n'] + ([s[2], s[3]] + s[4..]);
      assert SpaceLists(s) == [s[0], '\n'] + (['\n'] + mid);
    } else if s != [] {
      SpaceListsInserts(s[1..]);
      InsertsNewlinesPrefix([s[0]], s[1..], SpaceLists(s[1..]));
      assert s == [s[0]] + s[1..];
    }
  }

  /** After the list substitution no list item directly follows such a line. */
  lemma {:induction false} SpaceListsNoTight(s: string)
    ensures NoTightList(SpaceLists(s))
    decreases |s|
  {
    var t := SpaceLists(s);
    if TightListAt(s, 0) {
      var rest := SpaceLists(s[4..]);
      SpaceListsNoTight(s[4..]);
      forall i | 0 <= i < |t| ensures !TightListAt(t, i) {
        if i >= 5 {
          assert t[i..] == rest[i - 5..];
          assert !TightListAt(rest, i - 5);
        }
      }
    } else if s != [] {
      var rest := SpaceLists(s[1..]);
      SpaceListsNoTight(s[1..]);
      forall i | 0 <= i < |t| ensures !TightListAt(t, i) {
        if i >= 1 {
          assert !TightListAt(rest, i - 1);
        } else if ListLead(s[0]) && |rest| >= 3 && rest[0] == '\n' && Bullet(rest[1]) {
          SpaceListsHead(s[1..]);
        }
      }
    }
  }

  /**
   * The first three characters of the substituted text, when they start with a line feed
   * and a bullet, are those of the original.
   */
  lemma SpaceListsHead(s: string)
    requires |SpaceLists(s)| >= 3 && SpaceLists(s)[0] == '\n' && Bullet(SpaceLists(s)[1])
    ensures |s| >= 3 && s[..3] == SpaceLists(s)[..3]
  {
    var t := SpaceLists(s);
    assert !TightListAt(s, 0) && s != [] && s[0] == '\n';
    assert t == ['\n'] + SpaceLists(s[1..]);
    var u := s[1..];
    assert !TightListAt(u, 0) && u != [];
    assert SpaceLists(u) == [u[0]] + SpaceLists(u[1..]);
    var w := u[1..];
    assert |SpaceLists(w)| >= 1;
    assert w != [];
    if !TightListAt(w, 0) {
      assert SpaceLists(w) == [w[0]] + SpaceLists(w[1..]);
    }
  }

  /** On text without tight lists the colon substitution finds nothing. */
  lemma {:induction false} SpaceColonListsIdentity(s: string)
    requires NoTightList(s)
    ensures SpaceColonLists(s) == s
    decreases |s|
  {
    if s != [] {
      assert !TightListAt(s, 0);
      assert NoTightList(s[1..]) by {
        forall i | 0 <= i < |s[1..]| ensures !TightListAt(s[1..], i) {
          assert !TightListAt(s, i + 1);
        }
      }
      SpaceColonListsIdentity(s[1..]);
      assert s == [s[0]] + s[1..];
    }
  }

  /**
   * `fix_list_formatting` only inserts line feeds, and afterwards a blank line separates
   * every line ending in `[a-z.:,;]` from a list item that follows it.
   */
  lemma FixListFormattingSpec(s: string)
    ensures FixListFormatting(s) == SpaceLists(s)
    ensures InsertsNewlines(s, FixListFormatting(s))
    ensures NoTightList(FixListFormatting(s))
  {
    FixListFormattingIsSpaceLists(s);
    SpaceListsInserts(s);
  }

  /** The first and third substitutions change nothing: the list formatting is the list substitution. */
  lemma FixListFormattingIsSpaceLists(s: string)
    ensures FixListFormatting(s) == SpaceLists(s)
    ensures NoTightList(SpaceLists(s))
  {
    KeepParagraphsIdentity(s);
    SpaceListsNoTight(s);
    SpaceColonListsIdentity(SpaceLists(s));
  }

  lemma FixListFormattingExample()
    ensures FixListFormatting("Items:\n- a") == "Items:\n\n- a"
  {
    FixListFormattingIsSpaceLists("Items:\n- a");
    ItemsListExample();
  }

  lemma ItemsListExample()
    ensures SpaceLists("Items:\n- a") == "Items:\n\n- a"
  {
    ColonListExample();
    SpaceListsCons("s:\n- a");
    SpaceListsCons("ms:\n- a");
    SpaceListsCons("ems:\n- a");
    SpaceListsCons("tems:\n- a");
    SpaceListsCons("Items:\n- a");
  }

  lemma ColonListExample()
    ensures SpaceLists(":\n- a") == ":\n\n- a"
  {
    var s := ":\n- a";
    assert TightListAt(s, 0);
    assert s[4..] == "a";
    assert SpaceLists("a") == "a";
  }

  lemma SpaceListsCons(s: string)
    requires s != [] && !TightListAt(s, 0)
    ensures SpaceLists(s) == [s[0]] + SpaceLists(s[1..])
  {
  }

  // ---------------------------------------------------------------- fix_line_breaks

  /** `[ \t]`. */
  predicate IsBlank(c: char)
  {
    c == ' ' || c == '\t'
  }

  /** The text with every character satisfying `drop` removed. */
  function Erase(s: string, drop: char -> bool): string
    decreases |s|
  {
    if s == [] then [] else (if drop(s[0]) then [] else [s[0]]) + Erase(s[1..], drop)
  }

  /** No erased character is left. */
  lemma {:induction false} EraseLeavesNone(s: string, drop: char -> bool)
    ensures forall k :: 0 <= k < |Erase(s, drop)| ==> !drop(Erase(s, drop)[k])
    decreases |s|
  {
    if s != [] {
      EraseLeavesNone(s[1..], drop);
      var head := if drop(s[0]) then [] else [s[0]];
      var r := Erase(s, drop);
      forall k | 0 <= k < |r| ensures !drop(r[k]) {
        if k >= |head| {
          assert r[k] == Erase(s[1..], drop)[k - |head|];
        }
      }
    }
  }

  lemma {:induction false} EraseConcat(a: string, b: string, drop: char -> bool)
    ensures Erase(a + b, drop) == Erase(a, drop) + Erase(b, drop)
    decreases |a|
  {
    if a != [] {
      EraseConcat(a[1..], b, drop);
      assert (a + b)[0] == a[0] && (a + b)[1..] == a[1..] + b;
    } else {
      assert a + b == b;
    }
  }

  /** Erasing from text made only of erased characters leaves nothing. */
  lemma {:induction false} EraseAll(s: string, drop: char -> bool)
    requires forall k :: 0 <= k < |s| ==> drop(s[k])
    ensures Erase(s, drop) == []
    decreases |s|
  {
    if s != [] {
      EraseAll(s[1..], drop);
    }
  }

  /** Length of the run of blanks that starts `s`. */
  function BlankRun(s: string): (n: nat)
    ensures n <= |s|
    ensures forall k :: 0 <= k < n ==> IsBlank(s[k])
    ensures n < |s| ==> !IsBlank(s[n])
  {
    if s == [] || !IsBlank(s[0]) then 0 else 1 + BlankRun(s[1..])
  }

  /** Length of the run of line feeds that starts `s`. */
  function NewlineRun(s: string): (n: nat)
    ensures n <= |s|
    ensures forall k :: 0 <= k < n ==> s[k] == '\n'
    ensures n < |s| ==> s[n] != '\n'
  {
    if s == [] || s[0] != '\n' then 0 else 1 + NewlineRun(s[1..])
  }

  /** `re.sub(r'[ \t]+$', '', text, flags=re.MULTILINE)`: blanks ending a line go. */
  function TrimLineEnds(s: string): (r: string)
    ensures s != [] && !IsBlank(s[0]) ==> r != [] && r[0] == s[0]
    decreases |s|
  {
    if s == [] then []
    else if IsBlank(s[0]) then
      var n := BlankRun(s);
      if n == |s| || s[n] == '\n' then TrimLineEnds(s[n..])
      else s[..n] + TrimLineEnds(s[n..])
    else [s[0]] + TrimLineEnds(s[1..])
  }

  /** No blank ends a line or the text. */
  predicate NoTrailingBlanks(s: string)
  {
    forall i :: 0 <= i < |s| && IsBlank(s[i]) ==> i + 1 < |s| && s[i + 1] != '\n'
  }

  /** `re.sub(r'\n{4,}', '\n\n\n', text)`: a run of four or more line feeds becomes three. */
  function CollapseNewlines(s: string): (r: string)
    ensures s != [] ==> r != [] && (r[0] == '\n' <==> s[0] == '\n')
    ensures s != [] && s[0] != '\n' ==> r[0] == s[0]
    decreases |s|
  {
    if s == [] then []
    else if s[0] == '\n' then
      var n := NewlineRun(s);
      (if n >= 4 then "\n\n\n" else s[..n]) + CollapseNewlines(s[n..])
    else [s[0]] + CollapseNewlines(s[1..])
  }

  /** Four line feeds in a row start at `i`. */
  predicate FourNewlinesAt(s: string, i: nat)
  {
    i + 3 < |s| && s[i] == '\n' && s[i + 1] == '\n' && s[i + 2] == '\n' && s[i + 3] == '\n'
  }

  /** No four line feeds in a row. */
  predicate NoFourNewlines(s: string)
  {
    forall i :: 0 <= i < |s| ==> !FourNewlinesAt(s, i)
  }

  /** `[.,;:!?]`. */
  predicate IsPunct(c: char)
  {
    c == '.' || c == ',' || c == ';' || c == ':' || c == '!' || c == '?'
  }

  /** `re.sub(r'\s+([.,;:!?])', r'\1', text)`: whitespace, line feeds included, before punctuation goes. */
  function DropSpaceBeforePunct(s: string): string
    decreases |s|
  {
    if s == [] then []
    else if IsSpace(s[0]) then
      var n := LeadingSpace(s);
      if n < |s| && IsPunct(s[n]) then [s[n]] + DropSpaceBeforePunct(s[n + 1..])
      else s[..n] + DropSpaceBeforePunct(s[n..])
    else [s[0]] + DropSpaceBeforePunct(s[1..])
  }

  /** No whitespace character directly precedes punctuation. */
  predicate NoSpaceBeforePunct(s: string)
  {
    forall i :: 0 <= i && i + 1 < |s| && IsPunct(s[i + 1]) ==> !IsSpace(s[i])
  }

  /** `fix_line_breaks`: the three substitutions in order. */
  function FixLineBreaks(s: string): (r: string)
    ensures Erase(r, IsSpace) == Erase(s, IsSpace)
  {
    var a := TrimLineEnds(s);
    var b := CollapseNewlines(a);
    DropSpaceBeforePunctErasesSpace(b);
    TrimLineEndsErasesBlanks(s);
    CollapseNewlinesErasesNewlines(a);
    EraseBlanksThenSpace(s);
    EraseBlanksThenSpace(a);
    EraseNewlinesThenSpace(a);
    EraseNewlinesThenSpace(b);
    DropSpaceBeforePunct(CollapseNewlines(TrimLineEnds(s)))
  }

  lemma {:induction false} TrimLineEndsNoTrailing(s: string)
    ensures NoTrailingBlanks(TrimLineEnds(s))
    decreases |s|
  {
    if s != [] {
      var t := TrimLineEnds(s);
      if IsBlank(s[0]) {
        var n := BlankRun(s);
        TrimLineEndsNoTrailing(s[n..]);
        if n < |s| && s[n] != '\n' {
          var rest := TrimLineEnds(s[n..]);
          forall i | 0 <= i < |t| && IsBlank(t[i]) ensures i + 1 < |t| && t[i + 1] != '\n' {
            if i >= n {
              assert t[i] == rest[i - n];
            } else if i + 1 < n {
              assert t[i + 1] == s[i + 1];
            } else {
              assert t[i + 1] == rest[0];
            }
          }
        }
      } else {
        TrimLineEndsNoTrailing(s[1..]);
        var rest := TrimLineEnds(s[1..]);
        forall i | 0 <= i < |t| && IsBlank(t[i]) ensures i + 1 < |t| && t[i + 1] != '\n' {
          if i >= 1 {
            assert t[i] == rest[i - 1];
          }
        }
      }
    }
  }

  /** Only blanks are removed: with blanks erased, the text is unchanged. */
  lemma {:induction false} TrimLineEndsErasesBlanks(s: string)
    ensures Erase(TrimLineEnds(s), IsBlank) == Erase(s, IsBlank)
    decreases |s|
  {
    if s != [] {
      if IsBlank(s[0]) {
        var n := BlankRun(s);
        TrimLineEndsErasesBlanks(s[n..]);
        EraseConcat(s[..n], s[n..], IsBlank);
        EraseAll(s[..n], IsBlank);
        assert s == s[..n] + s[n..];
        if n < |s| && s[n] != '\n' {
          EraseConcat(s[..n], TrimLineEnds(s[n..]), IsBlank);
        }
      } else {
        TrimLineEndsErasesBlanks(s[1..]);
        EraseConcat([s[0]], TrimLineEnds(s[1..]), IsBlank);
      }
    }
  }

  /** Text of at most three line feeds followed by text that has no four and does not start with one. */
  lemma NoFourAfterShortRun(head: string, rest: string)
    requires |head| <= 3 && forall k :: 0 <= k < |head| ==> head[k] == '\n'
    requires NoFourNewlines(rest) && (rest == [] || rest[0] != '\n')
    ensures NoFourNewlines(head + rest)
  {
    var t := head + rest;
    forall i | 0 <= i < |t| ensures !FourNewlinesAt(t, i) {
      if i >= |head| {
        assert !FourNewlinesAt(rest, i - |head|);
      } else if i + 3 < |t| {
        assert t[|head|] == rest[0];
      }
    }
  }

  /** A character that is not a line feed in front of text without four line feeds. */
  lemma NoFourAfterChar(c: char, rest: string)
    requires c != '\n' && NoFourNewlines(rest)
    ensures NoFourNewlines([c] + rest)
  {
    var t := [c] + rest;
    forall i | 0 <= i < |t| ensures !FourNewlinesAt(t, i) {
      if i >= 1 {
        assert !FourNewlinesAt(rest, i - 1);
      }
    }
  }

  lemma {:induction false} CollapseNewlinesNoFour(s: string)
    ensures NoFourNewlines(CollapseNewlines(s))
    decreases |s|
  {
    if s != [] {
      if s[0] == '\n' {
        var n := NewlineRun(s);
        CollapseNewlinesNoFour(s[n..]);
        if n >= 4 {
          NoFourAfterShortRun("\n\n\n", CollapseNewlines(s[n..]));
        } else {
          NoFourAfterShortRun(s[..n], CollapseNewlines(s[n..]));
        }
      } else {
        CollapseNewlinesNoFour(s[1..]);
        NoFourAfterChar(s[0], CollapseNewlines(s[1..]));
      }
    }
  }

  /** Only line feeds are removed: with line feeds erased, the text is unchanged. */
  lemma {:induction false} CollapseNewlinesErasesNewlines(s: string)
    ensures Erase(CollapseNewlines(s), IsNewline) == Erase(s, IsNewline)
    decreases |s|
  {
    if s != [] {
      if s[0] == '\n' {
        var n := NewlineRun(s);
        var head: string := if n >= 4 then "\n\n\n" else s[..n];
        CollapseNewlinesErasesNewlines(s[n..]);
        EraseConcat(head, CollapseNewlines(s[n..]), IsNewline);
        EraseConcat(s[..n], s[n..], IsNewline);
        EraseAll(head, IsNewline);
        EraseAll(s[..n], IsNewline);
        assert s == s[..n] + s[n..];
      } else {
        CollapseNewlinesErasesNewlines(s[1..]);
        EraseConcat([s[0]], CollapseNewlines(s[1..]), IsNewline);
      }
    }
  }

  predicate IsNewline(c: char)
  {
    c == '\n'
  }

  /** A character that is not whitespace in front of text with no whitespace before punctuation. */
  lemma NoSpaceBeforePunctAfterChar(c: char, rest: string)
    requires !IsSpace(c) && NoSpaceBeforePunct(rest)
    ensures NoSpaceBeforePunct([c] + rest)
  {
    var t := [c] + rest;
    forall i | 0 <= i && i + 1 < |t| && IsPunct(t[i + 1]) ensures !IsSpace(t[i]) {
      if i >= 1 {
        assert t[i] == rest[i - 1] && t[i + 1] == rest[i];
      }
    }
  }

  /** A run of whitespace in front of text that has none before punctuation and does not start with punctuation. */
  lemma NoSpaceBeforePunctAfterRun(head: string, rest: string)
    requires forall k :: 0 <= k < |head| ==> IsSpace(head[k])
    requires rest != [] ==> !IsPunct(rest[0])
    requires NoSpaceBeforePunct(rest)
    ensures NoSpaceBeforePunct(head + rest)
  {
    var t := head + rest;
    forall i | 0 <= i && i + 1 < |t| && IsPunct(t[i + 1]) ensures !IsSpace(t[i]) {
      if i >= |head| {
        assert t[i] == rest[i - |head|] && t[i + 1] == rest[i - |head| + 1];
      }
    }
  }

  lemma {:induction false} DropSpaceBeforePunctSpec(s: string)
    ensures NoSpaceBeforePunct(DropSpaceBeforePunct(s))
    decreases |s|
  {
    if s != [] {
      if IsSpace(s[0]) {
        var n := LeadingSpace(s);
        if n < |s| && IsPunct(s[n]) {
          DropSpaceBeforePunctSpec(s[n + 1..]);
          DropAtPunct(s, n);
          NoSpaceBeforePunctAfterChar(s[n], DropSpaceBeforePunct(s[n + 1..]));
        } else {
          DropSpaceBeforePunctSpec(s[n..]);
          DropAtRun(s, n);
          if n < |s| {
            DropAtChar(s[n..]);
          }
          NoSpaceBeforePunctAfterRun(s[..n], DropSpaceBeforePunct(s[n..]));
        }
      } else {
        DropSpaceBeforePunctSpec(s[1..]);
        DropAtChar(s);
        NoSpaceBeforePunctAfterChar(s[0], DropSpaceBeforePunct(s[1..]));
      }
    }
  }

  /** The scan at a whitespace run that ends in punctuation: the run goes. */
  lemma DropAtPunct(s: string, n: nat)
    requires s != [] && IsSpace(s[0]) && n == LeadingSpace(s) && n < |s| && IsPunct(s[n])
    ensures DropSpaceBeforePunct(s) == [s[n]] + DropSpaceBeforePunct(s[n + 1..])
  {
  }

  /** The scan at a whitespace run not followed by punctuation: the run stays. */
  lemma DropAtRun(s: string, n: nat)
    requires s != [] && IsSpace(s[0]) && n == LeadingSpace(s) && !(n < |s| && IsPunct(s[n]))
    ensures DropSpaceBeforePunct(s) == s[..n] + DropSpaceBeforePunct(s[n..])
  {
  }

  /** The scan at any other character: it stays. */
  lemma DropAtChar(s: string)
    requires s != [] && !IsSpace(s[0])
    ensures DropSpaceBeforePunct(s) == [s[0]] + DropSpaceBeforePunct(s[1..])
    ensures DropSpaceBeforePunct(s) != [] && DropSpaceBeforePunct(s)[0] == s[0]
  {
  }

  /** Only whitespace is removed: with whitespace erased, the text is unchanged. */
  lemma {:induction false} DropSpaceBeforePunctErasesSpace(s: string)
    ensures Erase(DropSpaceBeforePunct(s), IsSpace) == Erase(s, IsSpace)
    decreases |s|
  {
    if s != [] {
      if IsSpace(s[0]) {
        var n := LeadingSpace(s);
        if n < |s| && IsPunct(s[n]) {
          DropSpaceBeforePunctErasesSpace(s[n + 1..]);
          ErasesAtPunct(s, n);
        } else {
          DropSpaceBeforePunctErasesSpace(s[n..]);
          ErasesAtRun(s, n);
        }
      } else {
        DropSpaceBeforePunctErasesSpace(s[1..]);
        DropAtChar(s);
        EraseConcat([s[0]], DropSpaceBeforePunct(s[1..]), IsSpace);
      }
    }
  }

  /** Erasing whitespace from a text that starts with a whitespace run of length `n`. */
  lemma EraseRun(s: string, n: nat)
    requires n <= |s| && forall k :: 0 <= k < n ==> IsSpace(s[k])
    ensures Erase(s, IsSpace) == Erase(s[n..], IsSpace)
  {
    EraseConcat(s[..n], s[n..], IsSpace);
    EraseAll(s[..n], IsSpace);
    assert s == s[..n] + s[n..];
  }

  lemma ErasesAtRun(s: string, n: nat)
    requires s != [] && IsSpace(s[0]) && n == LeadingSpace(s) && !(n < |s| && IsPunct(s[n]))
    requires Erase(DropSpaceBeforePunct(s[n..]), IsSpace) == Erase(s[n..], IsSpace)
    ensures Erase(DropSpaceBeforePunct(s), IsSpace) == Erase(s, IsSpace)
  {
    DropAtRun(s, n);
    EraseRun(s, n);
    EraseConcat(s[..n], DropSpaceBeforePunct(s[n..]), IsSpace);
    EraseAll(s[..n], IsSpace);
  }

  lemma ErasesAtPunct(s: string, n: nat)
    requires s != [] && IsSpace(s[0]) && n == LeadingSpace(s) && n < |s| && IsPunct(s[n])
    requires Erase(DropSpaceBeforePunct(s[n + 1..]), IsSpace) == Erase(s[n + 1..], IsSpace)
    ensures Erase(DropSpaceBeforePunct(s), IsSpace) == Erase(s, IsSpace)
  {
    DropAtPunct(s, n);
    EraseRun(s, n);
    EraseConcat([s[n]], DropSpaceBeforePunct(s[n + 1..]), IsSpace);
    EraseConcat([s[n]], s[n + 1..], IsSpace);
    assert s[n..] == [s[n]] + s[n + 1..];
  }

  lemma NoTrailingBlanksSuffix(s: string, k: nat)
    requires NoTrailingBlanks(s) && k <= |s|
    ensures NoTrailingBlanks(s[k..])
  {
    var u := s[k..];
    forall i | 0 <= i < |u| && IsBlank(u[i]) ensures i + 1 < |u| && u[i + 1] != '\n' {
      assert u[i] == s[i + k];
    }
  }

  lemma NoFourNewlinesSuffix(s: string, k: nat)
    requires NoFourNewlines(s) && k <= |s|
    ensures NoFourNewlines(s[k..])
  {
    var u := s[k..];
    forall i | 0 <= i < |u| ensures !FourNewlinesAt(u, i) {
      assert !FourNewlinesAt(s, i + k);
    }
  }

  /** A character that is not blank in front of text where no blank ends a line. */
  lemma NoTrailingBlanksAfterChar(c: char, rest: string)
    requires !IsBlank(c) && NoTrailingBlanks(rest)
    ensures NoTrailingBlanks([c] + rest)
  {
    var t := [c] + rest;
    forall i | 0 <= i < |t| && IsBlank(t[i]) ensures i + 1 < |t| && t[i + 1] != '\n' {
      assert t[i] == rest[i - 1];
    }
  }

  /** Collapsing line feeds never leaves a blank at the end of a line. */
  lemma {:induction false} CollapseNewlinesKeepsTrim(s: string)
    requires NoTrailingBlanks(s)
    ensures NoTrailingBlanks(CollapseNewlines(s))
    decreases |s|
  {
    if s != [] {
      if s[0] == '\n' {
        var n := NewlineRun(s);
        var head: string := if n >= 4 then "\n\n\n" else s[..n];
        var rest := CollapseNewlines(s[n..]);
        NoTrailingBlanksSuffix(s, n);
        CollapseNewlinesKeepsTrim(s[n..]);
        var t := head + rest;
        assert forall k :: 0 <= k < |head| ==> head[k] == '\n';
        forall i | 0 <= i < |t| && IsBlank(t[i]) ensures i + 1 < |t| && t[i + 1] != '\n' {
          assert i >= |head| && t[i] == rest[i - |head|];
        }
      } else {
        NoTrailingBlanksSuffix(s, 1);
        CollapseNewlinesKeepsTrim(s[1..]);
        var rest := CollapseNewlines(s[1..]);
        var t := [s[0]] + rest;
        forall i | 0 <= i < |t| && IsBlank(t[i]) ensures i + 1 < |t| && t[i + 1] != '\n' {
          if i >= 1 {
            assert t[i] == rest[i - 1];
          } else {
            assert |s| > 1 && s[1] != '\n';
            assert t[1] == rest[0];
          }
        }
      }
    }
  }

  /** Dropping whitespace before punctuation keeps both line-break properties. */
  lemma {:induction false} DropSpaceBeforePunctKeeps(s: string)
    requires NoTrailingBlanks(s) && NoFourNewlines(s)
    ensures NoTrailingBlanks(DropSpaceBeforePunct(s)) && NoFourNewlines(DropSpaceBeforePunct(s))
    decreases |s|
  {
    if s != [] {
      if IsSpace(s[0]) {
        var n := LeadingSpace(s);
        if n < |s| && IsPunct(s[n]) {
          NoTrailingBlanksSuffix(s, n + 1);
          NoFourNewlinesSuffix(s, n + 1);
          DropSpaceBeforePunctKeeps(s[n + 1..]);
          NoTrailingBlanksAfterChar(s[n], DropSpaceBeforePunct(s[n + 1..]));
          NoFourAfterChar(s[n], DropSpaceBeforePunct(s[n + 1..]));
          DropAtPunct(s, n);
        } else {
          NoTrailingBlanksSuffix(s, n);
          NoFourNewlinesSuffix(s, n);
          DropSpaceBeforePunctKeeps(s[n..]);
          DropKeepsAtRun(s, n);
          DropAtRun(s, n);
        }
      } else {
        NoTrailingBlanksSuffix(s, 1);
        NoFourNewlinesSuffix(s, 1);
        DropSpaceBeforePunctKeeps(s[1..]);
        NoTrailingBlanksAfterChar(s[0], DropSpaceBeforePunct(s[1..]));
        NoFourAfterChar(s[0], DropSpaceBeforePunct(s[1..]));
        DropAtChar(s);
      }
    }
  }

  /** The whitespace run kept in front of the rest of the scan: the seam adds nothing. */
  lemma DropKeepsAtRun(s: string, n: nat)
    requires n <= |s| && (n < |s| ==> !IsSpace(s[n]))
    requires NoTrailingBlanks(s) && NoFourNewlines(s)
    requires NoTrailingBlanks(DropSpaceBeforePunct(s[n..])) && NoFourNewlines(DropSpaceBeforePunct(s[n..]))
    ensures NoTrailingBlanks(s[..n] + DropSpaceBeforePunct(s[n..]))
    ensures NoFourNewlines(s[..n] + DropSpaceBeforePunct(s[n..]))
  {
    var rest := DropSpaceBeforePunct(s[n..]);
    var t := s[..n] + rest;
    if n == |s| {
      assert t == s;
    } else {
      DropAtChar(s[n..]);
      assert t[n] == s[n];
      forall i | 0 <= i < |t| && IsBlank(t[i]) ensures i + 1 < |t| && t[i + 1] != '\n' {
        if i >= n {
          assert t[i] == rest[i - n];
        } else if i + 1 < n {
          assert t[i] == s[i] && t[i + 1] == s[i + 1];
        }
      }
      forall i | 0 <= i < |t| ensures !FourNewlinesAt(t, i) {
        if i >= n {
          assert !FourNewlinesAt(rest, i - n);
        } else if i + 3 < n {
          assert !FourNewlinesAt(s, i);
        }
      }
    }
  }

  /**
   * `fix_line_breaks`: no blank ends a line, no four line feeds follow one another, no
   * whitespace precedes punctuation, and only blanks and whitespace before punctuation and
   * surplus line feeds are removed.
   */
  lemma FixLineBreaksSpec(s: string)
    ensures NoTrailingBlanks(FixLineBreaks(s))
    ensures NoFourNewlines(FixLineBreaks(s))
    ensures NoSpaceBeforePunct(FixLineBreaks(s))
    ensures Erase(FixLineBreaks(s), IsSpace) == Erase(s, IsSpace)
  {
    var a := TrimLineEnds(s);
    var b := CollapseNewlines(a);
    TrimLineEndsNoTrailing(s);
    CollapseNewlinesKeepsTrim(a);
    CollapseNewlinesNoFour(a);
    DropSpaceBeforePunctKeeps(b);
    DropSpaceBeforePunctSpec(b);
    DropSpaceBeforePunctErasesSpace(b);
    TrimLineEndsErasesBlanks(s);
    CollapseNewlinesErasesNewlines(a);
    EraseBlanksThenSpace(s);
    EraseBlanksThenSpace(a);
    EraseNewlinesThenSpace(a);
    EraseNewlinesThenSpace(b);
  }

  /** Erasing whitespace after erasing blanks is erasing whitespace. */
  lemma {:induction false} EraseBlanksThenSpace(s: string)
    ensures Erase(Erase(s, IsBlank), IsSpace) == Erase(s, IsSpace)
    decreases |s|
  {
    if s != [] {
      EraseBlanksThenSpace(s[1..]);
      EraseConcat(if IsBlank(s[0]) then [] else [s[0]], Erase(s[1..], IsBlank), IsSpace);
    }
  }

  /** Erasing whitespace after erasing line feeds is erasing whitespace. */
  lemma {:induction false} EraseNewlinesThenSpace(s: string)
    ensures Erase(Erase(s, IsNewline), IsSpace) == Erase(s, IsSpace)
    decreases |s|
  {
    if s != [] {
      EraseNewlinesThenSpace(s[1..]);
      EraseConcat(if IsNewline(s[0]) then [] else [s[0]], Erase(s[1..], IsNewline), IsSpace);
    }
  }

  // ---------------------------------------------------------------- fix_special_symbols

  /** The symbol replacements, in the order they are applied; the trade mark sign is not among them. */
  const Symbols: Table := [
    ('\U{B0}', " degrees"), ('\U{A9}', "(c)"), ('\U{AE}', "(R)"),
    ('\U{D7}', "x"), ('\U{F7}', "/"), ('\U{2248}', "~"), ('\U{2260}', "!="),
    ('\U{2264}', "<="), ('\U{2265}', ">=")
  ]

  lemma SymbolsWellFormed()
    ensures WellFormed(Symbols)
  {
    assert PlainTable(Symbols[..5]) && PlainTable(Symbols[5..]);
    PlainTableConcat(Symbols[..5], Symbols[5..]);
    assert Symbols[..5] + Symbols[5..] == Symbols;
    PlainTableWellFormed(Symbols);
  }

  /** `fix_special_symbols`: one `replace` per symbol, in order. */
  function FixSpecialSymbols(s: string): (r: string)
    ensures r == MapChars(Symbols, s)
  {
    SymbolsWellFormed();
    ApplyTableIsMap(Symbols, s);
    ApplyTable(Symbols, s)
  }

  /**
   * `fix_special_symbols` maps every symbol to its text, leaves every other character (the
   * trade mark sign included) as it is, and leaves none of the symbols behind.
   */
  lemma FixSpecialSymbolsSpec(s: string)
    ensures FixSpecialSymbols(s) == MapChars(Symbols, s)
    ensures forall j :: 0 <= j < |Symbols| ==> Symbols[j].0 !in FixSpecialSymbols(s)
    ensures (forall k :: 0 <= k < |s| ==> !HasKey(Symbols, s[k])) ==> FixSpecialSymbols(s) == s
  {
    SymbolsWellFormed();
    ApplyTableIsMap(Symbols, s);
    forall j | 0 <= j < |Symbols| ensures Symbols[j].0 !in FixSpecialSymbols(s) {
      MapCharsRemovesKeys(Symbols, s, j);
    }
    if forall k :: 0 <= k < |s| ==> !HasKey(Symbols, s[k]) {
      MapCharsKeepsOthers(Symbols, s);
    }
  }

  /** The trade mark sign is not a key, so it survives. */
  lemma TradeMarkKept()
    ensures FixSpecialSymbols("\U{2122}") == "\U{2122}"
  {
    FixSpecialSymbolsSpec("\U{2122}");
  }

  /** Each symbol becomes its own text. */
  lemma {:induction false} FixSpecialSymbolsOfOne(j: nat)
    requires j < |Symbols|
    ensures FixSpecialSymbols([Symbols[j].0]) == Symbols[j].1
  {
    FixSpecialSymbolsSpec([Symbols[j].0]);
    SymbolKeysDistinct();
    LookupDistinct(Symbols, j);
    assert MapChars(Symbols, [Symbols[j].0]) == Lookup(Symbols, Symbols[j].0) + MapChars(Symbols, []);
  }

  /** No two entries have the same key. */
  predicate DistinctKeys(t: Table)
  {
    forall i, j :: 0 <= i < j < |t| ==> t[i].0 != t[j].0
  }

  /** With distinct keys, a key is replaced by its own entry's text. */
  lemma LookupDistinct(t: Table, j: nat)
    requires DistinctKeys(t) && j < |t|
    ensures Lookup(t, t[j].0) == t[j].1
  {
    assert HasKey(t, t[j].0);
    var i :| 0 <= i < |t| && t[i].0 == t[j].0 && Lookup(t, t[j].0) == t[i].1;
    assert i == j;
  }

  lemma SymbolKeysDistinct()
    ensures DistinctKeys(Symbols)
  {
  }

  /**
   * Entries that neither touch line feeds nor leave a blank at the end of a replacement:
   * keys are neither line feeds nor blanks, and replacements are non-empty, hold no line feed
   * and do not end in a blank.
   */
  predicate LineSafe(t: Table)
  {
    forall i :: 0 <= i < |t| ==>
      t[i].0 != '\n' && !IsBlank(t[i].0) && |t[i].1| > 0 && '\n' !in t[i].1 && !IsBlank(t[i].1[|t[i].1| - 1])
  }

  lemma SymbolsLineSafe()
    ensures LineSafe(Symbols)
  {
  }

  /** What a line-safe table makes of one character: the character itself or a safe replacement. */
  lemma LookupLineSafe(t: Table, ch: char)
    requires LineSafe(t)
    ensures var r := Lookup(t, ch);
            r == [ch] || (ch != '\n' && !IsBlank(ch) && |r| > 0 && '\n' !in r && !IsBlank(r[|r| - 1]))
  {
  }

  /** A line-safe map starts with exactly as many line feeds as its input. */
  lemma {:induction false} MapCharsNewlineRun(t: Table, s: string)
    requires LineSafe(t)
    ensures NewlineRun(MapChars(t, s)) == NewlineRun(s)
    decreases |s|
  {
    if s != [] {
      var l := Lookup(t, s[0]);
      var rest := MapChars(t, s[1..]);
      LookupLineSafe(t, s[0]);
      if s[0] == '\n' {
        MapCharsNewlineRun(t, s[1..]);
        assert l == ['\n'];
        assert (l + rest)[1..] == rest;
      } else {
        assert (l + rest)[0] == l[0];
      }
    }
  }

  lemma FourNewlinesAtRun(s: string)
    ensures FourNewlinesAt(s, 0) <==> NewlineRun(s) >= 4
  {
    if |s| >= 1 && s[0] == '\n' {
      assert NewlineRun(s) == 1 + NewlineRun(s[1..]);
      if |s| >= 2 && s[1] == '\n' {
        assert NewlineRun(s[1..]) == 1 + NewlineRun(s[2..]);
        if |s| >= 3 && s[2] == '\n' {
          assert NewlineRun(s[2..]) == 1 + NewlineRun(s[3..]);
        }
      }
    }
  }

  /** A line-safe map keeps both line-break properties. */
  lemma {:induction false} MapCharsKeepsLines(t: Table, s: string)
    requires LineSafe(t) && NoTrailingBlanks(s) && NoFourNewlines(s)
    ensures NoTrailingBlanks(MapChars(t, s)) && NoFourNewlines(MapChars(t, s))
    decreases |s|
  {
    if s != [] {
      var l := Lookup(t, s[0]);
      var rest := MapChars(t, s[1..]);
      var m := l + rest;
      NoTrailingBlanksSuffix(s, 1);
      NoFourNewlinesSuffix(s, 1);
      MapCharsKeepsLines(t, s[1..]);
      LookupLineSafe(t, s[0]);
      MapCharsNewlineRun(t, s[1..]);
      SeamNoTrailingBlanks(s, l, rest);
      SeamNoFourNewlines(s, l, rest);
    }
  }

  /** What a line-safe table makes of a character, in front of the map of the rest, leaves no blank at a line end. */
  lemma SeamNoTrailingBlanks(s: string, l: string, rest: string)
    requires s != [] && NoTrailingBlanks(s) && NoTrailingBlanks(rest)
    requires l == [s[0]] || (s[0] != '\n' && !IsBlank(s[0]) && |l| > 0 && '\n' !in l && !IsBlank(l[|l| - 1]))
    requires NewlineRun(rest) == NewlineRun(s[1..]) && (|s| > 1 ==> rest != [])
    ensures NoTrailingBlanks(l + rest)
  {
    var m := l + rest;
    forall i | 0 <= i < |m| && IsBlank(m[i]) ensures i + 1 < |m| && m[i + 1] != '\n' {
      if i >= |l| {
        assert m[i] == rest[i - |l|];
      } else if l == [s[0]] {
        assert |s| > 1 && s[1] != '\n';
        assert NewlineRun(s[1..]) == 0;
      }
    }
  }

  /** The same seam never makes four line feeds in a row. */
  lemma SeamNoFourNewlines(s: string, l: string, rest: string)
    requires s != [] && NoFourNewlines(s) && NoFourNewlines(rest)
    requires l == [s[0]] || (s[0] != '\n' && !IsBlank(s[0]) && |l| > 0 && '\n' !in l && !IsBlank(l[|l| - 1]))
    requires NewlineRun(rest) == NewlineRun(s[1..])
    ensures NoFourNewlines(l + rest)
  {
    var m := l + rest;
    forall i | 0 <= i < |m| ensures !FourNewlinesAt(m, i) {
      if i >= |l| {
        assert !FourNewlinesAt(rest, i - |l|);
      } else if l == [s[0]] {
        FourNewlinesAtRun(m[i..]);
        FourNewlinesAtRun(s);
        assert !FourNewlinesAt(s, 0);
        if s[0] == '\n' {
          assert m[i..] == ['\n'] + rest;
          assert NewlineRun(m[i..]) == 1 + NewlineRun(rest);
          assert NewlineRun(s) == 1 + NewlineRun(s[1..]);
        }
      } else {
        assert m[i] == l[i] != '\n';
      }
    }
  }

  // ---------------------------------------------------------------- normalize_text

  /** The four stages of `normalize_text`, composed in order. */
  function Normalized(text: string, nfkd: string -> string, isCombining: char -> bool): string
  {
    FixSpecialSymbols(FixLineBreaks(FixListFormatting(DropCombining(nfkd(MapChars(Replacements, text)), isCombining))))
  }

  /**
   * `normalize_text` (and the text part of `normalize_file`): Unicode normalization, list
   * formatting, line-break fixes and symbol fixes, in that order.  The list stage reduces to
   * its second substitution, and the symbol stage keeps the line-break guarantees.
   */
  method NormalizeText(text: string, nfkd: string -> string, isCombining: char -> bool) returns (out: string)
    ensures out == Normalized(text, nfkd, isCombining)
    ensures var u := DropCombining(nfkd(MapChars(Replacements, text)), isCombining);
            out == FixSpecialSymbols(FixLineBreaks(SpaceLists(u)))
    ensures forall j :: 0 <= j < |Symbols| ==> Symbols[j].0 !in out
    ensures NoTrailingBlanks(out) && NoFourNewlines(out)
  {
    var u := NormalizeUnicode(text, nfkd, isCombining);
    var listed := FixListFormatting(u);
    FixListFormattingSpec(u);
    var broken := FixLineBreaks(listed);
    out := FixSpecialSymbols(broken);
    FixSpecialSymbolsSpec(broken);
    FixLineBreaksSpec(listed);
    SymbolsLineSafe();
    MapCharsKeepsLines(Symbols, broken);
  }
}
