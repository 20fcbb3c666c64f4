/**
 cleanup_imports.py: a chain of string replacements that is meant to filter the name list of
 an import line, applied line by line to a whole file.
 */
module ImportCleanup {
  import opened PyStrings

  /** The text that marks a line for rewriting; no blank is needed after it. */
  const GUARD := "from src.core.security import"
  /** What precedes the names of an import list. */
  const LIST_PREFIX := GUARD + " "
  const TO_REMOVE := ["require_admin", "require_manager", "require_approver", "require_hr"]

  predicate Targeted(line: string, isInit: bool) {
    Contains(line, GUARD) || (isInit && Contains(line, "require_"))
  }

  // ---------------------------------------------------------------- the rewrite

  function RemoveItem(line: string, item: string): string
    requires item != ""
  {
    Replace(Replace(Replace(line, ", " + item, ""), item + ", ", ""), item, "")
  }

  function RemoveItems(line: string, items: seq<string>): string
    requires "" !in items
  {
    if items == [] then line else RemoveItem(RemoveItems(line, items[..|items| - 1]), items[|items| - 1])
  }

  function TidyCommas(line: string): string {
    var collapsed := Replace(Replace(line, ", ,", ","), "import ,", "import ");
    if StrippedEndsWith(collapsed, ',') then RStripChar(RStrip(collapsed), ',') else collapsed
  }

  function CleanLine(line: string, isInit: bool): string {
    if Targeted(line, isInit) then TidyCommas(RemoveItems(line, TO_REMOVE)) else line
  }

  function CleanLines(lines: seq<string>, isInit: bool): (r: seq<string>)
    ensures |r| == |lines|
  {
    seq(|lines|, i requires 0 <= i < |lines| => CleanLine(lines[i], isInit))
  }

  function CleanContent(content: string, isInit: bool): string {
    Join(CleanLines(Split(content, '\n'), isInit), "\n")
  }

  /** The inner loop over the names to remove. */
  method RemoveAll(original: string, items: seq<string>) returns (line: string)
    requires "" !in items
    ensures line == RemoveItems(original, items)
  {
    line := original;
    for m := 0 to |items|
      invariant line == RemoveItems(original, items[..m])
    {
      assert items[..m + 1][..m] == items[..m];
      var item := items[m];
      line := Replace(line, ", " + item, "");
      line := Replace(line, item + ", ", "");
      line := Replace(line, item, "");
    }
    assert items[..|items|] == items;
  }

  /** The body of the loop over the lines. */
  method RewriteLine(original: string, isInit: bool) returns (line: string)
    ensures line == CleanLine(original, isInit)
  {
    line := original;
    if Targeted(line, isInit) {
      line := RemoveAll(line, TO_REMOVE);
      line := Replace(line, ", ,", ",");
      line := Replace(line, "import ,", "import ");
      if StrippedEndsWith(line, ',') {
        line := RStripChar(RStrip(line), ',');
      }
    }
  }

  /** The body of the loop over the files. */
  method RewriteFile(content: string, isInit: bool) returns (newContent: string, changed: bool)
    ensures newContent == CleanContent(content, isInit) && changed == (newContent != content)
  {
    var lines := Split(content, '\n');
    var newLines := [];
    for k := 0 to |lines|
      invariant newLines == CleanLines(lines[..k], isInit)
    {
      var line := RewriteLine(lines[k], isInit);
      newLines := newLines + [line];
    }
    assert lines[..|lines|] == lines;
    newContent := Join(newLines, "\n");
    changed := content != newContent;
  }

  // ---------------------------------------------------------------- import lists

  predicate IsName(s: string) {
    s != "" && forall c <- s :: c != ',' && !IsSpace(c)
  }

  /** Names that do not have `item` as a proper part. */
  predicate Clear(names: seq<string>, item: string) {
    forall i :: 0 <= i < |names| ==> IsName(names[i]) && (Contains(names[i], item) ==> names[i] == item)
  }

  predicate Free(names: seq<string>, item: string) {
    forall i :: 0 <= i < |names| ==> IsName(names[i]) && !Contains(names[i], item)
  }

  predicate WellFormedNames(names: seq<string>, items: seq<string>) {
    && (forall i :: 0 <= i < |names| ==> IsName(names[i]))
    && (forall k :: 0 <= k < |items| ==> Clear(names, items[k]))
  }

  function Drop(names: seq<string>, item: string): seq<string> {
    if names == [] then []
    else if names[0] == item then Drop(names[1..], item)
    else [names[0]] + Drop(names[1..], item)
  }

  /** The filter that the rewrite stands for. */
  function Keep(names: seq<string>, items: seq<string>): seq<string> {
    if names == [] then []
    else if names[0] in items then Keep(names[1..], items)
    else [names[0]] + Keep(names[1..], items)
  }

  function Tail(names: seq<string>): string {
    if names == [] then "" else ", " + names[0] + Tail(names[1..])
  }

  lemma {:induction false} JoinIsTail(names: seq<string>)
    requires names != []
    ensures Join(names, ", ") == names[0] + Tail(names[1..])
  {
    if |names| > 1 {
      JoinIsTail(names[1..]);
      var rest := Tail(names[1..][1..]);
      assert names[0] + ", " + (names[1] + rest) == names[0] + (", " + names[1] + rest);
    }
  }

  /** What the proofs need of the text before the list and of a removed name. */
  predicate Separable(prefix: string, item: string) {
    && prefix != "" && prefix[|prefix| - 1] == ' ' && ',' !in prefix
    && IsName(item) && !Contains(prefix, item)
  }

  predicate Plain(s: string) {
    ',' !in s && ' ' !in s
  }

  lemma NameIsPlain(n: string)
    requires IsName(n)
    ensures Plain(n)
  {
  }

  /** No occurrence of a removed name starts inside the prefix. */
  lemma PrefixIsSafe(prefix: string, item: string, more: string, rest: string, i: nat)
    requires Separable(prefix, item) && i < |prefix|
    ensures !At(prefix + rest, item + more, i)
  {
    if i + |item| <= |prefix| {
      AbsentWithin(prefix, rest, item, more, i);
    } else {
      var k := |prefix| - 1;
      NameIsPlain(item);
      assert item[k - i] in item;
      Mismatch(prefix + rest, item + more, i, k);
    }
  }

  /** A plain word that is not in n cannot start in n or in the separator after it. */
  lemma SeparatorIsSafe(n: string, tail: string, item: string, i: nat)
    requires item != "" && Plain(item) && !Contains(n, item) && i < |n| + 2
    ensures !At(n + ", " + tail, item, i)
  {
    var s := n + ", " + tail;
    if i + |item| <= |n| {
      assert !At(n, item, i);
      AbsentWithin(n, ", " + tail, item, "", i);
      assert item + "" == item && n + (", " + tail) == s;
    } else {
      var k := if i <= |n| then |n| else |n| + 1;
      assert s[k] == ", "[k - |n|];
      assert item[k - i] in item;
      Mismatch(s, item, i, k);
    }
  }

  /** A removed name can only occur inside one name. */
  lemma {:induction false} ListIsSafe(names: seq<string>, item: string)
    requires item != "" && Plain(item) && Free(names, item)
    ensures !Contains(Join(names, ", "), item)
  {
    if names == [] {
      assert !At("", item, 0);
    } else if |names| == 1 {
      assert !Contains(names[0], item);
    } else {
      var n, tail := names[0], Join(names[1..], ", ");
      var s := n + ", " + tail;
      assert !Contains(n, item);
      ListIsSafe(names[1..], item);
      forall i | 0 <= i <= |s| ensures !At(s, item, i) {
        if i < |n| + 2 {
          SeparatorIsSafe(n, tail, item, i);
        } else {
          AbsentLater(n + ", ", tail, item, i);
        }
      }
    }
  }

  lemma NoItemLeft(prefix: string, names: seq<string>, item: string)
    requires Separable(prefix, item) && Free(names, item)
    ensures !Contains(prefix + Join(names, ", "), item)
  {
    var list := Join(names, ", ");
    NameIsPlain(item);
    ListIsSafe(names, item);
    forall i | 0 <= i <= |prefix + list| ensures !At(prefix + list, item, i) {
      if i < |prefix| {
        assert item + "" == item;
        PrefixIsSafe(prefix, item, "", list, i);
      } else {
        AbsentLater(prefix, list, item, i);
      }
    }
  }

  lemma LongerAbsent(s: string, before: string, item: string, after: string)
    requires !Contains(s, item)
    ensures !Contains(s, before + item + after)
  {
    var pat := before + item + after;
    forall i | 0 <= i <= |s| ensures !At(s, pat, i) {
      if i + |before| <= |s| {
        assert !At(s, item, i + |before|);
        assert s[i..][|before|..] == s[i + |before|..];
        assert pat[|before|..] == item + after;
      }
    }
  }

  // ---------------------------------------------------------------- one item

  /** Replacing ", item" filters everything after the first name. */
  lemma {:induction false} TailDrops(names: seq<string>, item: string)
    requires IsName(item) && Clear(names, item)
    ensures Replace(Tail(names), ", " + item, "") == Tail(Drop(names, item))
  {
    if names != [] {
      var n, rest, pat := names[0], Tail(names[1..]), ", " + item;
      TailDrops(names[1..], item);
      if n == item {
        ReplaceHit(pat, rest, "");
        assert Tail(names) == pat + rest;
        assert Drop(names, item) == Drop(names[1..], item);
      } else {
        var s := ", " + n + rest;
        NameIsPlain(n);
        NameIsPlain(item);
        assert !At(n, item, 0);
        OtherNameIsSafe(n, rest, item);
        ReplaceSkips(s, pat, "", |n| + 2);
        assert s[..|n| + 2] == ", " + n && s[|n| + 2..] == rest;
        assert ([n] + Drop(names[1..], item))[1..] == Drop(names[1..], item);
      }
    }
  }

  lemma OtherNameIsSafe(n: string, rest: string, item: string)
    requires Plain(n) && Plain(item) && item != "" && !At(n, item, 0)
    requires rest == "" || rest[0] == ','
    ensures forall i :: 0 <= i < |n| + 2 ==> !At(", " + n + rest, ", " + item, i)
  {
    var s, pat := ", " + n + rest, ", " + item;
    forall i | 0 <= i < |n| + 2 ensures !At(s, pat, i) {
      if i == 0 {
        OtherNameAtStart(n, rest, item);
      } else {
        assert i > 1 ==> s[i] == n[i - 2] && n[i - 2] in n;
        Mismatch(s, pat, i, i);
      }
    }
  }

  lemma OtherNameAtStart(n: string, rest: string, item: string)
    requires Plain(item) && item != "" && !At(n, item, 0)
    requires rest == "" || rest[0] == ','
    ensures !At(", " + n + rest, ", " + item, 0)
  {
    if |item| <= |n| {
      AbsentWithin(n, rest, item, "", 0);
      assert item + "" == item && (n + rest)[0..] == n + rest;
      assert (", " + n + rest)[0..][2..] == n + rest && (", " + item)[2..] == item;
    } else {
      var k := |n| + 2;
      assert (", " + item)[k] == item[k - 2] && item[k - 2] in item;
      Mismatch(", " + n + rest, ", " + item, 0, k);
    }
  }

  lemma CommaFreeAbsent(line: string, item: string)
    requires ',' !in line
    ensures !Contains(line, ", " + item) && !Contains(line, item + ", ")
  {
    assert (", " + item)[0] == ',' && (item + ", ")[|item|] == ',';
    MissingChar(line, ", " + item, ',');
    MissingChar(line, item + ", ", ',');
  }

  lemma CommaFreeIsSafe(head: string, rest: string, pat: string)
    requires ',' !in head && pat != "" && pat[0] == ','
    ensures forall i :: 0 <= i < |head| ==> !At(head + rest, pat, i)
  {
    forall i | 0 <= i < |head| ensures !At(head + rest, pat, i) {
      assert (head + rest)[i] == head[i] && head[i] in head;
      Mismatch(head + rest, pat, i, i);
    }
  }

  lemma PrefixedList(prefix: string, names: seq<string>)
    requires names != []
    ensures prefix + Join(names, ", ") == (prefix + names[0]) + Tail(names[1..])
  {
    JoinIsTail(names);
  }

  /** The first of the three replacements spares the first name and filters the others. */
  lemma AfterFirstReplace(prefix: string, names: seq<string>, item: string)
    requires Separable(prefix, item) && Clear(names, item) && names != []
    ensures Replace(prefix + Join(names, ", "), ", " + item, "") ==
            prefix + Join([names[0]] + Drop(names[1..], item), ", ")
  {
    var head, rest, kept := prefix + names[0], names[1..], Drop(names[1..], item);
    NameIsPlain(names[0]);
    CommaFreeIsSafe(head, Tail(rest), ", " + item);
    ReplaceAfter(head, Tail(rest), ", " + item, "");
    TailDrops(rest, item);
    PrefixedList(prefix, names);
    PrefixedList(prefix, [names[0]] + kept);
    assert ([names[0]] + kept)[1..] == kept;
  }

  lemma {:induction false} DropFrees(names: seq<string>, item: string)
    requires Clear(names, item)
    ensures Free(Drop(names, item), item)
  {
    if names != [] {
      DropFrees(names[1..], item);
    }
  }

  /** The last two replacements on a list that consists of the removed name only. */
  lemma OnlyNameDropped(prefix: string, item: string)
    requires Separable(prefix, item)
    ensures Replace(Replace(prefix + item, item + ", ", ""), item, "") == prefix
  {
    var line := prefix + item;
    NameIsPlain(item);
    CommaFreeAbsent(line, item);
    ReplaceAbsent(line, item + ", ", "");
    forall i | 0 <= i < |prefix| ensures !At(line, item, i) {
      PrefixIsSafe(prefix, item, "", item, i);
      assert item + "" == item;
    }
    ReplaceAfter(prefix, item, item, "");
    ReplaceHit(item, "", "");
    assert item + "" == item;
  }

  lemma FreeListAbsent(prefix: string, kept: seq<string>, item: string)
    requires Separable(prefix, item) && Free(kept, item)
    ensures Replace(Join(kept, ", "), item + ", ", "") == Join(kept, ", ")
    ensures Replace(prefix + Join(kept, ", "), item, "") == prefix + Join(kept, ", ")
  {
    var list := Join(kept, ", ");
    NameIsPlain(item);
    ListIsSafe(kept, item);
    LongerAbsent(list, "", item, ", ");
    assert "" + item + ", " == item + ", ";
    ReplaceAbsent(list, item + ", ", "");
    NoItemLeft(prefix, kept, item);
    ReplaceAbsent(prefix + list, item, "");
  }

  lemma SecondReplace(prefix: string, list: string, item: string)
    requires Separable(prefix, item)
    ensures Replace(prefix + (item + ", " + list), item + ", ", "") == prefix + Replace(list, item + ", ", "")
  {
    var pat := item + ", ";
    forall i | 0 <= i < |prefix| ensures !At(prefix + (pat + list), pat, i) {
      PrefixIsSafe(prefix, item, ", ", pat + list, i);
    }
    ReplaceAfter(prefix, pat + list, pat, "");
    ReplaceHit(pat, list, "");
    assert "" + Replace(list, pat, "") == Replace(list, pat, "");
  }

  /** The same on a list that starts with the removed name. */
  lemma FirstNameDropped(prefix: string, kept: seq<string>, item: string)
    requires Separable(prefix, item) && Free(kept, item)
    ensures Replace(Replace(prefix + (item + ", " + Join(kept, ", ")), item + ", ", ""), item, "") ==
            prefix + Join(kept, ", ")
  {
    SecondReplace(prefix, Join(kept, ", "), item);
    FreeListAbsent(prefix, kept, item);
  }

  /** One round of the chain drops every occurrence of the item, wherever it is. */
  lemma ItemRemoved(prefix: string, names: seq<string>, item: string)
    requires Separable(prefix, item) && Clear(names, item)
    ensures RemoveItem(prefix + Join(names, ", "), item) == prefix + Join(Drop(names, item), ", ")
  {
    DropFrees(names, item);
    NoItemLeft(prefix, Drop(names, item), item);
    var line := prefix + Join(Drop(names, item), ", ");
    LongerAbsent(line, ", ", item, "");
    LongerAbsent(line, "", item, ", ");
    assert ", " + item + "" == ", " + item && "" + item + ", " == item + ", ";
    if names == [] {
      ReplaceAbsent(line, ", " + item, "");
      ReplaceAbsent(line, item + ", ", "");
      ReplaceAbsent(line, item, "");
    } else {
      AfterFirstReplace(prefix, names, item);
      DropFrees(names[1..], item);
      if names[0] == item {
        var kept := Drop(names[1..], item);
        assert Drop(names, item) == kept && ([item] + kept)[1..] == kept;
        if kept == [] {
          OnlyNameDropped(prefix, item);
          assert prefix + Join(kept, ", ") == prefix;
        } else {
          FirstNameDropped(prefix, kept, item);
        }
      } else {
        ReplaceAbsent(line, item + ", ", "");
        ReplaceAbsent(line, item, "");
      }
    }
  }

  // ---------------------------------------------------------------- the whole chain

  lemma {:induction false} KeepStep(names: seq<string>, items: seq<string>, item: string)
    ensures Keep(names, items + [item]) == Drop(Keep(names, items), item)
  {
    if names != [] {
      KeepStep(names[1..], items, item);
      assert ([names[0]] + Keep(names[1..], items))[1..] == Keep(names[1..], items);
      assert names[0] in items + [item] <==> names[0] in items || names[0] == item;
    }
  }

  lemma {:induction false} KeepNothing(names: seq<string>)
    ensures Keep(names, []) == names
  {
    if names != [] {
      KeepNothing(names[1..]);
    }
  }

  lemma {:induction false} KeepClear(names: seq<string>, items: seq<string>, item: string)
    requires Clear(names, item)
    ensures Clear(Keep(names, items), item)
  {
    if names != [] {
      KeepClear(names[1..], items, item);
    }
  }

  lemma {:induction false} ItemsRemoved(prefix: string, names: seq<string>, items: seq<string>)
    requires "" !in items && WellFormedNames(names, items)
    requires forall k :: 0 <= k < |items| ==> Separable(prefix, items[k])
    ensures RemoveItems(prefix + Join(names, ", "), items) == prefix + Join(Keep(names, items), ", ")
  {
    if items == [] {
      KeepNothing(names);
    } else {
      var init, last := items[..|items| - 1], items[|items| - 1];
      ItemsRemoved(prefix, names, init);
      KeepClear(names, init, last);
      ItemRemoved(prefix, Keep(names, init), last);
      assert init + [last] == items;
      KeepStep(names, init, last);
    }
  }

  // ---------------------------------------------------------------- tidying leaves clean lists alone

  predicate NoSpaceComma(s: string) {
    forall i :: 0 < i < |s| && s[i - 1] == ' ' ==> s[i] != ','
  }

  lemma NoSpaceCommaConcat(a: string, b: string)
    requires NoSpaceComma(a) && NoSpaceComma(b)
    requires a == "" || b == "" || a[|a| - 1] != ' ' || b[0] != ','
    ensures NoSpaceComma(a + b)
  {
    assert forall i :: 0 <= i < |a| ==> (a + b)[i] == a[i];
    assert forall i :: |a| <= i < |a + b| ==> (a + b)[i] == b[i - |a|];
  }

  lemma PlainIsTidy(s: string)
    requires ',' !in s
    ensures NoSpaceComma(s)
  {
    assert forall i :: 0 <= i < |s| ==> s[i] in s;
  }

  lemma {:induction false} TailIsTidy(names: seq<string>)
    requires forall i :: 0 <= i < |names| ==> IsName(names[i])
    ensures NoSpaceComma(Tail(names))
    ensures Tail(names) != "" ==> Tail(names)[0] == ',' && !IsSpace(Tail(names)[|Tail(names)| - 1])
                                  && Tail(names)[|Tail(names)| - 1] != ','
  {
    if names != [] {
      var n, rest := names[0], Tail(names[1..]);
      TailIsTidy(names[1..]);
      NameIsPlain(n);
      assert n[|n| - 1] in n && n[0] in n;
      PlainIsTidy(n);
      NoSpaceCommaConcat(", ", n);
      NoSpaceCommaConcat(", " + n, rest);
    }
  }

  lemma CommaFreeIsTidy(s: string)
    requires ',' !in s
    ensures NoSpaceComma(s) && !StrippedEndsWith(s, ',')
  {
    StripMeaning(s, ',');
    assert forall i :: 0 <= i < |s| ==> s[i] in s;
  }

  lemma ListIsTidy(prefix: string, names: seq<string>)
    requires forall i :: 0 <= i < |names| ==> IsName(names[i])
    requires ',' !in prefix
    ensures NoSpaceComma(prefix + Join(names, ", ")) && !StrippedEndsWith(prefix + Join(names, ", "), ',')
  {
    var line := prefix + Join(names, ", ");
    if names == [] {
      assert line == prefix;
      CommaFreeIsTidy(prefix);
    } else {
      var head, rest, n := prefix + names[0], Tail(names[1..]), names[0];
      PrefixedList(prefix, names);
      TailIsTidy(names[1..]);
      assert n[|n| - 1] in n;
      NameIsPlain(n);
      CommaFreeIsTidy(head);
      assert head[|head| - 1] == n[|n| - 1];
      NoSpaceCommaConcat(head, rest);
      assert line[|line| - 1] == if rest == "" then n[|n| - 1] else rest[|rest| - 1];
    }
  }

  lemma PatternsAbsent(line: string)
    requires NoSpaceComma(line)
    ensures !Contains(line, ", ,") && !Contains(line, "import ,")
  {
    SpaceCommaAbsent(line, ", ,", 2);
    SpaceCommaAbsent(line, "import ,", 7);
  }

  lemma TidyLine(line: string)
    requires NoSpaceComma(line) && !StrippedEndsWith(line, ',')
    ensures TidyCommas(line) == line
  {
    PatternsAbsent(line);
    ReplaceAbsent(line, ", ,", ",");
    ReplaceAbsent(line, "import ,", "import ");
  }

  lemma TidyLeaves(prefix: string, names: seq<string>)
    requires forall i :: 0 <= i < |names| ==> IsName(names[i])
    requires ',' !in prefix
    ensures TidyCommas(prefix + Join(names, ", ")) == prefix + Join(names, ", ")
  {
    ListIsTidy(prefix, names);
    TidyLine(prefix + Join(names, ", "));
  }

  lemma SpaceCommaAbsent(line: string, pat: string, k: nat)
    requires NoSpaceComma(line) && 0 < k < |pat| && pat[k - 1] == ' ' && pat[k] == ','
    ensures !Contains(line, pat)
  {
    forall i | 0 <= i <= |line| ensures !At(line, pat, i) {
      if i + k < |line| && line[i + k] == ',' {
        Mismatch(line, pat, i, i + k - 1);
      } else {
        Mismatch(line, pat, i, i + k);
      }
    }
  }

  // ---------------------------------------------------------------- main results

  lemma ItemFacts(k: nat)
    requires k < |TO_REMOVE|
    ensures IsName(TO_REMOVE[k]) && '_' in TO_REMOVE[k]
  {
    var item := TO_REMOVE[k];
    assert item[7] == '_';
    assert forall i :: 0 <= i < |item| ==> item[i] == '_' || 'a' <= item[i] <= 'z';
  }

  lemma PrefixFacts()
    ensures LIST_PREFIX[|LIST_PREFIX| - 1] == ' ' && ',' !in LIST_PREFIX && '_' !in LIST_PREFIX
  {
  }

  lemma PrefixSeparable(k: nat)
    requires k < |TO_REMOVE|
    ensures Separable(LIST_PREFIX, TO_REMOVE[k])
  {
    ItemFacts(k);
    PrefixFacts();
    MissingChar(LIST_PREFIX, TO_REMOVE[k], '_');
  }

  lemma ListLineTargeted(names: seq<string>, isInit: bool)
    ensures Targeted(LIST_PREFIX + Join(names, ", "), isInit)
  {
    var line := LIST_PREFIX + Join(names, ", ");
    assert line == GUARD + (" " + Join(names, ", ")) && line[0..] == line;
    assert At(line, GUARD, 0);
  }

  /** A text before a list: the import statement, or the indentation of a continued one. */
  predicate ListStart(prefix: string) {
    prefix == LIST_PREFIX || (prefix != "" && forall c <- prefix :: c == ' ')
  }

  lemma StartSeparable(prefix: string, k: nat)
    requires ListStart(prefix) && k < |TO_REMOVE|
    ensures Separable(prefix, TO_REMOVE[k])
  {
    ItemFacts(k);
    if prefix == LIST_PREFIX {
      PrefixSeparable(k);
    } else {
      assert prefix[|prefix| - 1] in prefix;
      MissingChar(prefix, TO_REMOVE[k], '_');
    }
  }

  /** The rewrite of a targeted list line is a list filter. */
  lemma TargetedListIsFilter(prefix: string, names: seq<string>, isInit: bool)
    requires ListStart(prefix) && WellFormedNames(names, TO_REMOVE)
    requires || Contains(prefix + Join(names, ", "), "from src.core.security import")
             || (isInit && Contains(prefix + Join(names, ", "), "require_"))
    ensures CleanLine(prefix + Join(names, ", "), isInit) == prefix + Join(Keep(names, TO_REMOVE), ", ")
  {
    forall k | 0 <= k < |TO_REMOVE| ensures Separable(prefix, TO_REMOVE[k]) {
      StartSeparable(prefix, k);
    }
    ItemsRemoved(prefix, names, TO_REMOVE);
    KeepNames(names, TO_REMOVE);
    TidyLeaves(prefix, Keep(names, TO_REMOVE));
  }

  /** In particular that of an import line is. */
  lemma RewriteIsFilter(names: seq<string>, isInit: bool)
    requires WellFormedNames(names, TO_REMOVE)
    ensures CleanLine(LIST_PREFIX + Join(names, ", "), isInit) == LIST_PREFIX + Join(Keep(names, TO_REMOVE), ", ")
    ensures LIST_PREFIX == "from src.core.security import "
    ensures TO_REMOVE == ["require_admin", "require_manager", "require_approver", "require_hr"]
  {
    ListLineTargeted(names, isInit);
    TargetedListIsFilter(LIST_PREFIX, names, isInit);
  }

  // ---------------------------------------------------------------- lines that end with a comma

  lemma {:induction false} ItemsRemovedThenComma(line: string, items: seq<string>)
    requires "" !in items && forall i :: 0 <= i < |items| ==> IsName(items[i])
    ensures RemoveItems(line + ",", items) == RemoveItems(line, items) + ","
  {
    if items != [] {
      var init, item := items[..|items| - 1], items[|items| - 1];
      ItemsRemovedThenComma(line, init);
      var s := RemoveItems(line, init);
      assert item[|item| - 1] in item;
      ReplaceBeforeLast(s, ", " + item, "", ',');
      var s1 := Replace(s, ", " + item, "");
      ReplaceBeforeLast(s1, item + ", ", "", ',');
      ReplaceBeforeLast(Replace(s1, item + ", ", ""), item, "", ',');
    }
  }

  lemma StripOneComma(line: string)
    requires line == "" || line[|line| - 1] != ','
    ensures RStrip(line + ",") == line + "," && StrippedEndsWith(line + ",", ',')
    ensures RStripChar(RStrip(line + ","), ',') == line
  {
    assert (line + ",")[..|line|] == line;
  }

  /** The strip takes the comma, and only it. */
  lemma CommaStripped(line: string)
    requires NoSpaceComma(line + ",") && !StrippedEndsWith(line, ',')
    requires line != "" && !IsSpace(line[|line| - 1])
    ensures TidyCommas(line + ",") == line
  {
    PatternsAbsent(line + ",");
    ReplaceAbsent(line + ",", ", ,", ",");
    ReplaceAbsent(line + ",", "import ,", "import ");
    StripOneComma(line);
  }

  lemma LoneCommaKept(prefix: string)
    requires ',' !in prefix
    ensures Replace(prefix + ",", ", ,", ",") == prefix + ","
  {
    var line := prefix + ",";
    forall i | 0 <= i <= |line| ensures !At(line, ", ,", i) {
      if i < |prefix| {
        assert line[i] == prefix[i] && prefix[i] in prefix;
        Mismatch(line, ", ,", i, i);
      } else {
        Mismatch(line, ", ,", i, i + 1);
      }
    }
    ReplaceAbsent(line, ", ,", ",");
  }

  /** Nothing is left of the list but its comma. */
  lemma LoneCommaStripped(prefix: string)
    requires ',' !in prefix
    ensures TidyCommas(prefix + ",") == prefix
  {
    LoneCommaKept(prefix);
    LoneCommaAfterImport(prefix);
    CommaFreeIsTidy(prefix);
    assert prefix != "" ==> prefix[|prefix| - 1] in prefix;
    StripOneComma(prefix);
  }

  lemma LoneCommaAfterImport(prefix: string)
    requires ',' !in prefix
    ensures Replace(prefix + ",", "import ,", "import ") in {prefix, prefix + ","}
  {
    var line, pat, k := prefix + ",", "import ,", |prefix| - 7;
    if 0 <= k && prefix[k..] == "import " {
      forall i | 0 <= i < k ensures !At(line, pat, i) {
        Mismatch(line, pat, i, i + 7);
      }
      ReplaceSkips(line, pat, "import ", k);
      assert line[k..] == pat + "" && line[..k] == prefix[..k];
      ReplaceHit(pat, "", "import ");
      assert "import " + "" == "import " && prefix == prefix[..k] + "import ";
    } else {
      forall i | 0 <= i <= |line| ensures !At(line, pat, i) {
        if i == k {
          assert line[k..][..7] == prefix[k..] && pat[..7] == "import ";
        } else {
          Mismatch(line, pat, i, i + 7);
        }
      }
      ReplaceAbsent(line, pat, "import ");
    }
  }

  /**
   A targeted list line that ends with a comma, as in a continued import, is filtered and loses
   the comma, whether or not it lost a name.
   */
  lemma TrailingCommaLost(prefix: string, names: seq<string>, isInit: bool)
    requires ListStart(prefix) && WellFormedNames(names, TO_REMOVE)
    requires || Contains(prefix + Join(names, ", ") + ",", "from src.core.security import")
             || (isInit && Contains(prefix + Join(names, ", ") + ",", "require_"))
    ensures CleanLine(prefix + Join(names, ", ") + ",", isInit) == prefix + Join(Keep(names, TO_REMOVE), ", ")
  {
    forall k | 0 <= k < |TO_REMOVE| ensures Separable(prefix, TO_REMOVE[k]) && IsName(TO_REMOVE[k]) {
      StartSeparable(prefix, k);
    }
    ItemsRemoved(prefix, names, TO_REMOVE);
    ItemsRemovedThenComma(prefix + Join(names, ", "), TO_REMOVE);
    var kept := Keep(names, TO_REMOVE);
    KeepNames(names, TO_REMOVE);
    if kept == [] {
      assert prefix + Join(kept, ", ") == prefix;
      LoneCommaStripped(prefix);
    } else {
      ListIsTidy(prefix, kept);
      ListEndsInName(prefix, kept);
      NoSpaceCommaConcat(prefix + Join(kept, ", "), ",");
      CommaStripped(prefix + Join(kept, ", "));
    }
  }

  lemma {:induction false} ListEndsInName(prefix: string, names: seq<string>)
    requires names != [] && forall i :: 0 <= i < |names| ==> IsName(names[i])
    ensures var line := prefix + Join(names, ", "); line != "" && !IsSpace(line[|line| - 1])
    decreases names
  {
    if |names| == 1 {
      assert names[0][|names[0]| - 1] in names[0];
    } else {
      var longer := prefix + names[0] + ", ";
      ListEndsInName(longer, names[1..]);
      assert prefix + Join(names, ", ") == longer + Join(names[1..], ", ");
    }
  }

  /** No line that is rewritten ends with a comma. */
  lemma NoCommaAtEnd(line: string, isInit: bool)
    requires Contains(line, "from src.core.security import") || (isInit && Contains(line, "require_"))
    ensures var result := CleanLine(line, isInit); result == "" || result[|result| - 1] != ','
  {
    var removed := RemoveItems(line, TO_REMOVE);
    var collapsed := Replace(Replace(removed, ", ,", ","), "import ,", "import ");
    StripMeaning(collapsed, ',');
    StripMeaning(RStrip(collapsed), ',');
  }

  /** An empty place in a list is closed. */
  lemma EmptyPlaceClosed(head: string, tail: string)
    requires NoSpaceComma(head) && NoSpaceComma(tail) && !StrippedEndsWith(head + ", " + tail, ',')
    requires head != "" && head[|head| - 1] != ' ' && (tail == "" || tail[0] != ',')
    ensures TidyCommas(head + ", , " + tail) == head + ", " + tail
  {
    GapReplaced(head, tail);
    var rest := "," + (" " + tail);
    assert head + rest == head + ", " + tail;
    NoSpaceCommaConcat(" ", tail);
    NoSpaceCommaConcat(",", " " + tail);
    NoSpaceCommaConcat(head, rest);
    PatternsAbsent(head + rest);
    ReplaceAbsent(head + rest, "import ,", "import ");
  }

  lemma GapReplaced(head: string, tail: string)
    requires NoSpaceComma(head) && NoSpaceComma(tail)
    requires head != "" && head[|head| - 1] != ' ' && (tail == "" || tail[0] != ',')
    ensures Replace(head + ", , " + tail, ", ,", ",") == head + ", " + tail
  {
    var rest := " " + tail;
    NoSpaceCommaConcat(" ", tail);
    PatternsAbsent(rest);
    NoGapBefore(head, rest);
    ReplaceOnce(head, ", ,", rest, ",");
    assert head + ", , " + tail == head + (", ," + rest) && head + ("," + rest) == head + ", " + tail;
  }

  lemma NoGapBefore(head: string, rest: string)
    requires NoSpaceComma(head) && head != "" && head[|head| - 1] != ' '
    ensures forall i :: 0 <= i < |head| ==> !At(head + (", ," + rest), ", ,", i)
  {
    var line, pat := head + (", ," + rest), ", ,";
    forall i | 0 <= i < |head| ensures !At(line, pat, i) {
      if i + 2 < |head| && head[i + 2] == ',' {
        Mismatch(line, pat, i, i + 1);
      } else if i + 2 < |head| || i + 1 == |head| {
        Mismatch(line, pat, i, if i + 1 == |head| then i + 1 else i + 2);
      } else {
        Mismatch(line, pat, i, i + 1);
      }
    }
  }

  /** So is an empty first place of an import list. */
  lemma EmptyFirstPlaceClosed(head: string, tail: string)
    requires ',' !in head && NoSpaceComma(tail) && tail != "" && tail[0] != ',' && tail[0] != ' '
    requires !StrippedEndsWith(head + "import  " + tail, ',')
    ensures TidyCommas(head + "import , " + tail) == head + "import  " + tail
  {
    FirstGapKept(head, tail);
    FirstGapReplaced(head, tail);
  }

  lemma FirstGapReplaced(head: string, tail: string)
    requires ',' !in head && NoSpaceComma(tail) && tail != "" && tail[0] != ',' && tail[0] != ' '
    ensures Replace(head + "import , " + tail, "import ,", "import ") == head + "import  " + tail
  {
    var rest := " " + tail;
    NoSpaceCommaConcat(" ", tail);
    PatternsAbsent(rest);
    NoImportGapBefore(head, rest);
    ReplaceOnce(head, "import ,", rest, "import ");
    assert head + "import , " + tail == head + ("import ," + rest);
    assert head + ("import " + rest) == head + "import  " + tail;
  }

  lemma NoImportGapBefore(head: string, rest: string)
    requires ',' !in head
    ensures forall i :: 0 <= i < |head| ==> !At(head + ("import ," + rest), "import ,", i)
  {
    var line := head + ("import ," + rest);
    forall i | 0 <= i < |head| ensures !At(line, "import ,", i) {
      if i + 7 < |head| {
        assert line[i + 7] == head[i + 7] && head[i + 7] in head;
      } else {
        assert line[i + 7] == "import ,"[i + 7 - |head|];
      }
      Mismatch(line, "import ,", i, i + 7);
    }
  }

  lemma FirstGapKept(head: string, tail: string)
    requires ',' !in head && NoSpaceComma(tail) && tail != "" && tail[0] != ',' && tail[0] != ' '
    ensures Replace(head + "import , " + tail, ", ,", ",") == head + "import , " + tail
  {
    var front, rest := head + "import ", " " + tail;
    var line := front + ("," + rest);
    assert line == head + "import , " + tail;
    NoSpaceCommaConcat(" ", tail);
    PatternsAbsent(rest);
    CommaFreeIsSafe(front, "," + rest, ", ,");
    ReplaceAfter(front, "," + rest, ", ,", ",");
    assert !At("," + rest, ", ,", 0) by {
      Mismatch("," + rest, ", ,", 0, 2);
    }
    assert forall i :: 0 <= i < 1 ==> !At("," + rest, ", ,", i);
    ReplaceAfter(",", rest, ", ,", ",");
    ReplaceAbsent(rest, ", ,", ",");
  }

  lemma {:induction false} KeepNames(names: seq<string>, items: seq<string>)
    requires WellFormedNames(names, items)
    ensures WellFormedNames(Keep(names, items), items)
    ensures Keep(Keep(names, items), items) == Keep(names, items)
  {
    if names != [] {
      assert forall k :: 0 <= k < |items| ==> Clear(names[1..], items[k]);
      KeepNames(names[1..], items);
      assert ([names[0]] + Keep(names[1..], items))[1..] == Keep(names[1..], items);
      assert forall k :: 0 <= k < |items| ==> Clear([names[0]], items[k]);
    }
  }

  // ---------------------------------------------------------------- whole files

  lemma NewlineFreeClean(line: string, isInit: bool)
    requires '\n' !in line
    ensures '\n' !in CleanLine(line, isInit)
  {
    if Targeted(line, isInit) {
      ItemsNewlineFree(line, TO_REMOVE);
      var removed := RemoveItems(line, TO_REMOVE);
      ReplaceNewChars(removed, ", ,", ",", '\n');
      ReplaceNewChars(Replace(removed, ", ,", ","), "import ,", "import ", '\n');
      var collapsed := Replace(Replace(removed, ", ,", ","), "import ,", "import ");
      StripMeaning(collapsed, ',');
      StripMeaning(RStrip(collapsed), ',');
    }
  }

  lemma {:induction false} ItemsNewlineFree(line: string, items: seq<string>)
    requires "" !in items && '\n' !in line
    ensures '\n' !in RemoveItems(line, items)
  {
    if items != [] {
      var init, item := items[..|items| - 1], items[|items| - 1];
      ItemsNewlineFree(line, init);
      var s := RemoveItems(line, init);
      ReplaceNewChars(s, ", " + item, "", '\n');
      ReplaceNewChars(Replace(s, ", " + item, ""), item + ", ", "", '\n');
      ReplaceNewChars(Replace(Replace(s, ", " + item, ""), item + ", ", ""), item, "", '\n');
    }
  }

  /** The file keeps its number of lines; line k is the cleaned line k, and untargeted lines are unchanged. */
  lemma FileIsCleanedLineByLine(content: string, isInit: bool)
    ensures Join(Split(content, '\n'), "\n") == content
    ensures var before, after := Split(content, '\n'), Split(CleanContent(content, isInit), '\n');
            && |after| == |before|
            && forall k :: 0 <= k < |before| ==>
                 && after[k] == CleanLine(before[k], isInit)
                 && (Contains(before[k], "from src.core.security import") || (isInit && Contains(before[k], "require_"))
                     || after[k] == before[k])
  {
    JoinSplit(content, '\n');
    var before := Split(content, '\n');
    SplitParts(content, '\n');
    forall k | 0 <= k < |before| ensures '\n' !in CleanLines(before, isInit)[k] {
      assert before[k] in before;
      NewlineFreeClean(before[k], isInit);
    }
    SplitJoin(CleanLines(before, isInit), '\n');
  }

  ghost predicate WellFormedLine(line: string) {
    exists names :: WellFormedNames(names, TO_REMOVE) && line == LIST_PREFIX + Join(names, ", ")
  }

  lemma CleanLineTwice(line: string)
    requires Targeted(line, false) ==> WellFormedLine(line)
    ensures CleanLine(CleanLine(line, false), false) == CleanLine(line, false)
  {
    if Targeted(line, false) {
      var names :| WellFormedNames(names, TO_REMOVE) && line == LIST_PREFIX + Join(names, ", ");
      RewriteIsFilter(names, false);
      KeepNames(names, TO_REMOVE);
      RewriteIsFilter(Keep(names, TO_REMOVE), false);
    }
  }

  /**
   Outside __init__.py files, a file whose targeted lines are well-formed import lists is
   rewritten once and for all.
   */
  lemma RewriteIsIdempotent(content: string)
    requires forall line <- Split(content, '\n') :: Targeted(line, false) ==> WellFormedLine(line)
    ensures CleanContent(CleanContent(content, false), false) == CleanContent(content, false)
  {
    var before, after := Split(content, '\n'), Split(CleanContent(content, false), '\n');
    FileIsCleanedLineByLine(content, false);
    forall k | 0 <= k < |before| ensures CleanLine(after[k], false) == after[k] {
      assert before[k] in before;
      CleanLineTwice(before[k]);
    }
    assert CleanLines(after, false) == after;
    JoinSplit(CleanContent(content, false), '\n');
  }
}
