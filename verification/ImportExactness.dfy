/**
 Exactly when the import cleanup is a list filter: iff no name has a removed name as a proper
 part. Every deletion of an item takes one copy of each of its characters with it, so a
 rewrite that deletes too often shows in the number of copies of a character of the item.
 */
module ImportExactness {
  import opened PyStrings
  import opened ImportCleanup

  predicate AllNames(names: seq<string>) {
    forall i :: 0 <= i < |names| ==> IsName(names[i])
  }

  /** Some name is longer than the item and starts with it. */
  predicate HasLongerStart(names: seq<string>, item: string) {
    exists i :: 0 <= i < |names| && item <= names[i] && names[i] != item
  }

  // ---------------------------------------------------------------- counting a character

  function Count(s: string, c: char): nat {
    if s == "" then 0 else (if s[0] == c then 1 else 0) + Count(s[1..], c)
  }

  lemma {:induction false} CountConcat(a: string, b: string, c: char)
    ensures Count(a + b, c) == Count(a, c) + Count(b, c)
  {
    if a == "" {
      assert a + b == b;
    } else {
      assert (a + b)[1..] == a[1..] + b;
      CountConcat(a[1..], b, c);
    }
  }

  lemma {:induction false} CountPositive(s: string, c: char)
    ensures Count(s, c) > 0 <==> c in s
  {
    if s != "" {
      CountPositive(s[1..], c);
    }
  }

  /** Deleting a text never adds a character, and loses one of each character of the text that it finds. */
  lemma {:induction false} DeletionCount(s: string, pat: string, c: char)
    requires pat != ""
    ensures Count(Replace(s, pat, ""), c) <= Count(s, c)
    ensures Contains(s, pat) && c in pat ==> Count(Replace(s, pat, ""), c) < Count(s, c)
    decreases |s|
  {
    if s == "" {
      assert !At(s, pat, 0);
    } else if pat <= s {
      DeletionCount(s[|pat|..], pat, c);
      CountConcat(pat, s[|pat|..], c);
      assert s == pat + s[|pat|..];
      assert "" + Replace(s[|pat|..], pat, "") == Replace(s[|pat|..], pat, "");
      CountPositive(pat, c);
    } else {
      DeletionCount(s[1..], pat, c);
      CountConcat([s[0]], Replace(s[1..], pat, ""), c);
      ContainsTail(s, pat);
    }
  }

  lemma ContainsTail(s: string, pat: string)
    requires s != "" && !(pat <= s)
    ensures Contains(s, pat) ==> Contains(s[1..], pat)
  {
    if i :| 0 <= i <= |s| && At(s, pat, i) {
      assert s[0..] == s;
      assert s[1..][i - 1..] == s[i..];
      assert At(s[1..], pat, i - 1);
    }
  }

  /** The last two replacements of a round lose a character of the item from every text that has the item. */
  lemma LastTwoCount(s: string, item: string, c: char)
    requires c in item
    ensures Count(Replace(Replace(s, item + ", ", ""), item, ""), c) <= Count(s, c)
    ensures Contains(s, item) ==> Count(Replace(Replace(s, item + ", ", ""), item, ""), c) < Count(s, c)
  {
    var pat := item + ", ";
    DeletionCount(s, pat, c);
    DeletionCount(Replace(s, pat, ""), item, c);
    if !Contains(s, pat) {
      ReplaceAbsent(s, pat, "");
    }
  }

  lemma RoundCount(s: string, item: string, c: char)
    requires item != ""
    ensures Count(RemoveItem(s, item), c) <= Count(s, c)
  {
    DeletionCount(s, ", " + item, c);
    var once := Replace(s, ", " + item, "");
    DeletionCount(once, item + ", ", c);
    DeletionCount(Replace(once, item + ", ", ""), item, c);
  }

  // ---------------------------------------------------------------- the first replacement

  /** A following name that starts with the item loses its separator and its head. */
  lemma StartIsCut(item: string, left: string, rest: string)
    requires ',' !in left
    ensures Replace((", " + item) + (left + rest), ", " + item, "") == left + Replace(rest, ", " + item, "")
  {
    var pat := ", " + item;
    ReplaceHit(pat, left + rest, "");
    CommaFreeIsSafe(left, rest, pat);
    ReplaceAfter(left, rest, pat, "");
    assert "" + Replace(left + rest, pat, "") == Replace(left + rest, pat, "");
  }

  lemma NameIsCut(n: string, rest: string, item: string)
    requires IsName(n) && item <= n
    ensures Replace(", " + n + rest, ", " + item, "") == n[|item|..] + Replace(rest, ", " + item, "")
  {
    var left := n[|item|..];
    assert forall c <- left :: c in n;
    NameIsPlain(n);
    assert n == item + left;
    assert ", " + n + rest == (", " + item) + (left + rest);
    StartIsCut(item, left, rest);
  }

  lemma OtherNameStays(n: string, rest: string, item: string)
    requires IsName(n) && IsName(item) && !(item <= n) && (rest == "" || rest[0] == ',')
    ensures Replace(", " + n + rest, ", " + item, "") == ", " + n + Replace(rest, ", " + item, "")
  {
    NameIsPlain(n);
    NameIsPlain(item);
    assert n[0..] == n;
    OtherNameIsSafe(n, rest, item);
    ReplaceAfter(", " + n, rest, ", " + item, "");
  }

  /** What one following name contributes before and after the first replacement. */
  lemma CutCount(n: string, item: string, c: char)
    requires item <= n
    ensures Count(item, c) + Count(n[|item|..], c) == Count(n, c) <= Count(", " + n, c)
  {
    assert n == item + n[|item|..];
    CountConcat(item, n[|item|..], c);
    CountConcat(", ", n, c);
  }

  lemma {:induction false} TailAfterReplace(names: seq<string>, item: string, c: char)
    requires IsName(item) && AllNames(names)
    ensures var left, kept := Replace(Tail(names), ", " + item, ""), Tail(Drop(names, item));
            if HasLongerStart(names, item) then Count(item, c) + Count(left, c) <= Count(kept, c) else left == kept
  {
    if names != [] {
      var n, rest, others := names[0], Tail(names[1..]), Drop(names[1..], item);
      var left := Replace(rest, ", " + item, "");
      TailAfterReplace(names[1..], item, c);
      LongerStartCons(names, item);
      assert Tail(names) == ", " + n + rest;
      if item <= n {
        NameIsCut(n, rest, item);
        CutCount(n, item, c);
        CountConcat(n[|item|..], left, c);
      } else {
        OtherNameStays(n, rest, item);
        CountConcat(", " + n, left, c);
      }
      if n != item {
        assert Drop(names, item) == [n] + others && ([n] + others)[1..] == others;
        CountConcat(", " + n, Tail(others), c);
      }
    }
  }

  lemma LongerStartCons(names: seq<string>, item: string)
    requires names != []
    ensures HasLongerStart(names, item) <==> (item <= names[0] && names[0] != item) || HasLongerStart(names[1..], item)
  {
    if i :| 0 <= i < |names[1..]| && item <= names[1..][i] && names[1..][i] != item {
      assert names[i + 1] == names[1..][i];
    }
    if i :| 0 < i < |names| && item <= names[i] && names[i] != item {
      assert names[1..][i - 1] == names[i];
    }
  }

  // ---------------------------------------------------------------- what the filter would keep

  lemma ContainsLater(a: string, b: string, pat: string)
    requires Contains(b, pat)
    ensures Contains(a + b, pat)
  {
    var i :| 0 <= i <= |b| && At(b, pat, i);
    assert (a + b)[|a| + i..] == b[i..];
    assert At(a + b, pat, |a| + i);
  }

  lemma ContainsEarlier(a: string, b: string, pat: string)
    requires Contains(a, pat)
    ensures Contains(a + b, pat)
  {
    var i :| 0 <= i <= |a| && At(a, pat, i);
    assert (a + b)[i..] == a[i..] + b;
    assert At(a + b, pat, i);
  }

  /** A kept name with the item inside shows up in the filtered list. */
  lemma {:induction false} KeptNameShows(names: seq<string>, item: string, i: nat)
    requires i < |names| && names[i] != item && Contains(names[i], item)
    ensures Drop(names, item) != [] && Contains(Join(Drop(names, item), ", "), item)
  {
    var others := Drop(names[1..], item);
    if i == 0 {
      assert ([names[0]] + others)[1..] == others;
      JoinIsTail(Drop(names, item));
      ContainsEarlier(names[0], Tail(others), item);
    } else {
      KeptNameShows(names[1..], item, i - 1);
      if names[0] != item {
        assert ([names[0]] + others)[1..] == others;
        assert Join(Drop(names, item), ", ") == names[0] + ", " + Join(others, ", ");
        ContainsLater(names[0] + ", ", Join(others, ", "), item);
      }
    }
  }

  lemma FirstReplace(prefix: string, names: seq<string>, item: string)
    requires Separable(prefix, item) && AllNames(names) && names != []
    ensures Replace(prefix + Join(names, ", "), ", " + item, "") ==
            prefix + names[0] + Replace(Tail(names[1..]), ", " + item, "")
  {
    var head := prefix + names[0];
    NameIsPlain(names[0]);
    CommaFreeIsSafe(head, Tail(names[1..]), ", " + item);
    ReplaceAfter(head, Tail(names[1..]), ", " + item, "");
    PrefixedList(prefix, names);
  }

  // ---------------------------------------------------------------- too much is deleted

  lemma TooMuchAfterHead(head: string, left: string, kept: string, item: string, c: char)
    requires c in item && (Count(left, c) < Count(kept, c) || (left == kept && Contains(head + kept, item)))
    ensures Count(Replace(Replace(head + left, item + ", ", ""), item, ""), c) < Count(head + kept, c)
  {
    CountConcat(head, left, c);
    CountConcat(head, kept, c);
    LastTwoCount(head + left, item, c);
  }

  lemma KeptListShows(prefix: string, names: seq<string>, item: string, i: nat)
    requires i < |names| && names[i] != item && Contains(names[i], item) && names[0] != item
    ensures var whole := prefix + names[0] + Tail(Drop(names[1..], item));
            whole == prefix + Join(Drop(names, item), ", ") && Contains(whole, item)
  {
    assert ([names[0]] + Drop(names[1..], item))[1..] == Drop(names[1..], item);
    PrefixedList(prefix, Drop(names, item));
    KeptNameShows(names, item, i);
    ContainsLater(prefix, Join(Drop(names, item), ", "), item);
  }

  lemma TooMuchWhenFirstKept(prefix: string, names: seq<string>, item: string, i: nat, c: char)
    requires Separable(prefix, item) && AllNames(names) && i < |names| && c in item
    requires names[i] != item && Contains(names[i], item) && names[0] != item
    ensures Count(RemoveItem(prefix + Join(names, ", "), item), c) < Count(prefix + Join(Drop(names, item), ", "), c)
  {
    FirstReplace(prefix, names, item);
    TailAfterReplace(names[1..], item, c);
    CountPositive(item, c);
    KeptListShows(prefix, names, item, i);
    var rest, kept := Replace(Tail(names[1..]), ", " + item, ""), Tail(Drop(names[1..], item));
    TooMuchAfterHead(prefix + names[0], rest, kept, item, c);
  }

  /** The item is first, and a later name starts with it: the first replacement already deletes enough. */
  lemma TooMuchAfterCut(prefix: string, item: string, left: string, list: string, c: char)
    requires c in item && Count(item, c) + Count(left, c) <= Count(list, c)
    ensures Count(Replace(Replace(prefix + item + left, item + ", ", ""), item, ""), c) < Count(prefix + list, c)
  {
    assert At(item, item, 0);
    assert Contains(item, item);
    ContainsLater(prefix, item, item);
    ContainsEarlier(prefix + item, left, item);
    LastTwoCount(prefix + item + left, item, c);
    CountConcat(prefix + item, left, c);
    CountConcat(prefix, item, c);
    CountConcat(prefix, list, c);
  }

  /** The item is first, and the rest of the list still contains it. */
  lemma TooMuchAfterSecond(prefix: string, list: string, item: string, c: char)
    requires Separable(prefix, item) && Contains(list, item) && c in item
    ensures Count(Replace(Replace(prefix + item + (", " + list), item + ", ", ""), item, ""), c) <
            Count(prefix + list, c)
  {
    var pat := item + ", ";
    assert prefix + item + (", " + list) == prefix + (pat + list);
    SecondReplace(prefix, list, item);
    var left := Replace(list, pat, "");
    DeletionCount(list, pat, c);
    DeletionCount(prefix + left, item, c);
    CountConcat(prefix, left, c);
    CountConcat(prefix, list, c);
    if !Contains(list, pat) {
      ReplaceAbsent(list, pat, "");
      ContainsLater(prefix, list, item);
    }
  }

  lemma TailIsSeparatedJoin(names: seq<string>)
    requires names != []
    ensures Tail(names) == ", " + Join(names, ", ")
  {
    JoinIsTail(names);
    assert ", " + names[0] + Tail(names[1..]) == ", " + (names[0] + Tail(names[1..]));
  }

  /** What the first replacement leaves of the names after the first, against the list to keep. */
  lemma AfterFirstName(names: seq<string>, item: string, i: nat, c: char)
    requires IsName(item) && AllNames(names) && i < |names| && c in item
    requires names[i] != item && Contains(names[i], item)
    ensures var left, list := Replace(Tail(names), ", " + item, ""), Join(Drop(names, item), ", ");
            Contains(list, item) && (Count(item, c) + Count(left, c) <= Count(list, c) || left == ", " + list)
  {
    var list := Join(Drop(names, item), ", ");
    TailAfterReplace(names, item, c);
    KeptNameShows(names, item, i);
    TailIsSeparatedJoin(Drop(names, item));
    NameIsPlain(item);
    CountConcat(", ", list, c);
    CountPositive(", ", c);
  }

  lemma TooMuchWhenFirstDropped(prefix: string, names: seq<string>, item: string, i: nat, c: char)
    requires Separable(prefix, item) && AllNames(names) && 0 < i < |names| && c in item
    requires names[i] != item && Contains(names[i], item) && names[0] == item
    ensures Count(RemoveItem(prefix + Join(names, ", "), item), c) < Count(prefix + Join(Drop(names, item), ", "), c)
  {
    var left, list := Replace(Tail(names[1..]), ", " + item, ""), Join(Drop(names[1..], item), ", ");
    FirstReplace(prefix, names, item);
    AfterFirstName(names[1..], item, i - 1, c);
    if left == ", " + list {
      TooMuchAfterSecond(prefix, list, item, c);
    } else {
      TooMuchAfterCut(prefix, item, left, list, c);
    }
  }

  /** A round on a list with the item inside a longer name deletes too many copies of each of its characters. */
  lemma RoundDeletesTooMuch(prefix: string, names: seq<string>, item: string, c: char)
    requires Separable(prefix, item) && AllNames(names) && !Clear(names, item) && c in item
    ensures Count(RemoveItem(prefix + Join(names, ", "), item), c) < Count(prefix + Join(Drop(names, item), ", "), c)
  {
    var i :| 0 <= i < |names| && Contains(names[i], item) && names[i] != item;
    if names[0] == item {
      TooMuchWhenFirstDropped(prefix, names, item, i, c);
    } else {
      TooMuchWhenFirstKept(prefix, names, item, i, c);
    }
  }

  /** One round of the chain filters the list iff no name has the item as a proper part. */
  lemma RemovalIsFilterIff(prefix: string, names: seq<string>, item: string)
    requires Separable(prefix, item) && AllNames(names)
    ensures RemoveItem(prefix + Join(names, ", "), item) == prefix + Join(Drop(names, item), ", ") <==>
            Clear(names, item)
  {
    if Clear(names, item) {
      ItemRemoved(prefix, names, item);
    } else {
      RoundDeletesTooMuch(prefix, names, item, item[0]);
    }
  }

  // ---------------------------------------------------------------- the whole chain

  /** A character of items[k] that no other item has. */
  predicate Marks(items: seq<string>, k: nat, c: char)
    requires k < |items|
  {
    c in items[k] && forall j :: 0 <= j < |items| && j != k ==> c !in items[j]
  }

  lemma {:induction false} RoundsCount(line: string, items: seq<string>, n: nat, c: char)
    requires "" !in items && n <= |items|
    ensures "" !in items[..n] && Count(RemoveItems(line, items), c) <= Count(RemoveItems(line, items[..n]), c)
    decreases |items|
  {
    if n == |items| {
      assert items[..n] == items;
    } else {
      var init, last := items[..|items| - 1], items[|items| - 1];
      RoundsCount(line, init, n, c);
      assert init[..n] == items[..n];
      RoundCount(RemoveItems(line, init), last, c);
    }
  }

  /** Dropping names that lack c keeps the number of copies of c. */
  lemma {:induction false} KeepCount(names: seq<string>, items: seq<string>, c: char)
    requires c != ',' && c != ' ' && forall j :: 0 <= j < |items| ==> c !in items[j]
    ensures Count(Tail(Keep(names, items)), c) == Count(Tail(names), c)
  {
    if names != [] {
      var n, kept := names[0], Keep(names[1..], items);
      KeepCount(names[1..], items, c);
      CountConcat(", " + n, Tail(names[1..]), c);
      CountConcat(", ", n, c);
      CountPositive(", ", c);
      CountPositive(n, c);
      if n !in items {
        assert ([n] + kept)[1..] == kept;
        CountConcat(", " + n, Tail(kept), c);
      }
    }
  }

  lemma ListCount(prefix: string, names: seq<string>, c: char)
    requires c != ',' && c != ' '
    ensures Count(prefix + Join(names, ", "), c) == Count(prefix, c) + Count(Tail(names), c)
  {
    CountConcat(prefix, Join(names, ", "), c);
    if names != [] {
      TailIsSeparatedJoin(names);
      CountConcat(", ", Join(names, ", "), c);
      CountPositive(", ", c);
    }
  }

  lemma {:induction false} KeepInTwo(names: seq<string>, first: seq<string>, second: seq<string>)
    ensures Keep(names, first + second) == Keep(Keep(names, first), second)
  {
    if names != [] {
      KeepInTwo(names[1..], first, second);
      assert ([names[0]] + Keep(names[1..], first))[1..] == Keep(names[1..], first);
      assert names[0] in first + second <==> names[0] in first || names[0] in second;
    }
  }

  lemma {:induction false} KeepMember(names: seq<string>, items: seq<string>, i: nat)
    requires i < |names| && names[i] !in items
    ensures names[i] in Keep(names, items)
  {
    if i > 0 {
      KeepMember(names[1..], items, i - 1);
    }
  }

  lemma {:induction false} KeepAllNames(names: seq<string>, items: seq<string>)
    requires AllNames(names)
    ensures AllNames(Keep(names, items))
  {
    if names != [] {
      KeepAllNames(names[1..], items);
    }
  }

  /** A round that starts from the filtered list deletes too much, and later rounds do not give it back. */
  lemma ChainDeletesTooMuch(prefix: string, names: seq<string>, items: seq<string>, k: nat, c: char)
    requires "" !in items && AllNames(names) && k < |items| && Marks(items, k, c)
    requires forall i :: 0 <= i < |items| ==> Separable(prefix, items[i])
    requires WellFormedNames(names, items[..k]) && !Clear(names, items[k])
    ensures Count(RemoveItems(prefix + Join(names, ", "), items), c) < Count(prefix + Join(Keep(names, items), ", "), c)
  {
    var line, before, item := prefix + Join(names, ", "), Keep(names, items[..k]), items[k];
    ItemsRemoved(prefix, names, items[..k]);
    KeepAllNames(names, items[..k]);
    StillUnclear(names, items, k, c);
    RoundDeletesTooMuch(prefix, before, item, c);
    assert items[..k + 1][..k] == items[..k];
    RoundsCount(line, items, k + 1, c);
    FilterCount(prefix, names, items, k, c);
  }

  /** The name with the item inside is not one of the removed names, so it is still there in round k. */
  lemma StillUnclear(names: seq<string>, items: seq<string>, k: nat, c: char)
    requires AllNames(names) && k < |items| && Marks(items, k, c) && !Clear(names, items[k])
    ensures !Clear(Keep(names, items[..k]), items[k])
  {
    var i :| 0 <= i < |names| && Contains(names[i], items[k]) && names[i] != items[k];
    assert c in names[i] by {
      if c !in names[i] {
        MissingChar(names[i], items[k], c);
      }
    }
    KeepMember(names, items[..k], i);
    var j :| 0 <= j < |Keep(names, items[..k])| && Keep(names, items[..k])[j] == names[i];
  }

  /** The rounds after k drop no copy of c from the list that round k should leave. */
  lemma FilterCount(prefix: string, names: seq<string>, items: seq<string>, k: nat, c: char)
    requires k < |items| && Marks(items, k, c) && c != ',' && c != ' '
    ensures Count(prefix + Join(Keep(names, items), ", "), c) ==
            Count(prefix + Join(Drop(Keep(names, items[..k]), items[k]), ", "), c)
  {
    var upTo, rest := items[..k + 1], items[k + 1..];
    assert items == upTo + rest && upTo == items[..k] + [items[k]];
    KeepInTwo(names, upTo, rest);
    KeepStep(names, items[..k], items[k]);
    KeepCount(Keep(names, upTo), rest, c);
    ListCount(prefix, Keep(names, items), c);
    ListCount(prefix, Keep(names, upTo), c);
  }

  /** The first item that some name has as a proper part. */
  lemma FirstUnclear(names: seq<string>, items: seq<string>) returns (k: nat)
    requires AllNames(names) && !WellFormedNames(names, items)
    ensures k < |items| && WellFormedNames(names, items[..k]) && !Clear(names, items[k])
  {
    k := 0;
    while Clear(names, items[k])
      invariant k < |items| && WellFormedNames(names, items[..k])
      invariant exists j :: k <= j < |items| && !Clear(names, items[j])
      decreases |items| - k
    {
      k := k + 1;
    }
  }

  // ---------------------------------------------------------------- the whole line

  lemma {:induction false} RStripCount(s: string, c: char)
    requires !IsSpace(c)
    ensures Count(RStrip(s), c) == Count(s, c)
  {
    if s != "" && IsSpace(s[|s| - 1]) {
      RStripCount(s[..|s| - 1], c);
      CountConcat(s[..|s| - 1], [s[|s| - 1]], c);
      assert s == s[..|s| - 1] + [s[|s| - 1]];
    }
  }

  lemma {:induction false} RStripCharCount(s: string, stripped: char, c: char)
    requires c != stripped
    ensures Count(RStripChar(s, stripped), c) == Count(s, c)
  {
    if s != "" && s[|s| - 1] == stripped {
      RStripCharCount(s[..|s| - 1], stripped, c);
      CountConcat(s[..|s| - 1], [s[|s| - 1]], c);
      assert s == s[..|s| - 1] + [s[|s| - 1]];
    }
  }

  lemma {:induction false} OtherCount(s: string, pat: string, subst: string, c: char)
    requires pat != "" && c !in pat && c !in subst
    ensures Count(Replace(s, pat, subst), c) == Count(s, c)
    decreases |s|
  {
    if s != "" {
      CountPositive(pat, c);
      CountPositive(subst, c);
      if pat <= s {
        OtherCount(s[|pat|..], pat, subst, c);
        CountConcat(pat, s[|pat|..], c);
        assert s == pat + s[|pat|..];
        CountConcat(subst, Replace(s[|pat|..], pat, subst), c);
      } else {
        OtherCount(s[1..], pat, subst, c);
        CountConcat([s[0]], Replace(s[1..], pat, subst), c);
      }
    }
  }

  /** Tidying the commas touches no character of the removed names that tells them apart. */
  lemma TidyCount(line: string, c: char)
    requires c in {'d', 'g', 'v', 'h'}
    ensures Count(TidyCommas(line), c) == Count(line, c)
  {
    OtherCount(line, ", ,", ",", c);
    var once := Replace(line, ", ,", ",");
    OtherCount(once, "import ,", "import ", c);
    var collapsed := Replace(once, "import ,", "import ");
    RStripCount(collapsed, c);
    RStripCharCount(RStrip(collapsed), ',', c);
  }

  const MARKS := ['d', 'g', 'v', 'h']

  lemma RemovedNamesAreMarked(k: nat)
    requires k < |TO_REMOVE|
    ensures MARKS[k] in {'d', 'g', 'v', 'h'} && Marks(TO_REMOVE, k, MARKS[k])
  {
    assert "require_admin"[9] == 'd' && "require_manager"[12] == 'g';
    assert "require_approver"[13] == 'v' && "require_hr"[8] == 'h';
  }

  /** The rewrite of an import line is the list filter iff no name has a removed name as a proper part. */
  lemma RewriteIsFilterIff(names: seq<string>, isInit: bool)
    requires AllNames(names)
    ensures CleanLine(LIST_PREFIX + Join(names, ", "), isInit) == LIST_PREFIX + Join(Keep(names, TO_REMOVE), ", ") <==>
            WellFormedNames(names, TO_REMOVE)
  {
    var line := LIST_PREFIX + Join(names, ", ");
    if WellFormedNames(names, TO_REMOVE) {
      RewriteIsFilter(names, isInit);
    } else {
      var k := FirstUnclear(names, TO_REMOVE);
      RemovedNamesAreMarked(k);
      forall i | 0 <= i < |TO_REMOVE| ensures Separable(LIST_PREFIX, TO_REMOVE[i]) {
        PrefixSeparable(i);
      }
      ListLineTargeted(names, isInit);
      ChainDeletesTooMuch(LIST_PREFIX, names, TO_REMOVE, k, MARKS[k]);
      TidyCount(RemoveItems(line, TO_REMOVE), MARKS[k]);
    }
  }
}
