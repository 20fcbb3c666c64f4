/**
 The two transformations that the audit client applies to entity snapshots: recursive
 redaction of sensitive keys, and the list of changed fields of an update.
 */
module AuditDiff {
  import opened Wrappers
  import opened PyStrings

  /** Snapshots as the client sees them; numbers are exact. */
  datatype Json =
    | Null
    | Bool(b: bool)
    | Int(i: int)
    | Float(r: real)
    | Str(s: string)
    | List(items: seq<Json>)
    | Dict(fields: map<string, Json>)

  const SENSITIVE_FIELDS := {
    "password", "password_hash", "token", "access_token", "refresh_token", "api_key", "secret", "client_secret",
    "credit_card", "ssn", "card_number", "cvv", "pin", "private_key", "authorization"}

  const MASK := Str("***REDACTED***")

  function LowerChar(c: char): char {
    if 'A' <= c <= 'Z' then c - 'A' + 'a' else c
  }

  function Lower(s: string): string {
    seq(|s|, i requires 0 <= i < |s| => LowerChar(s[i]))
  }

  predicate Sensitive(key: string) {
    exists word <- SENSITIVE_FIELDS :: Contains(Lower(key), word)
  }

  // ---------------------------------------------------------------- redaction

  /** _sanitize_data on a dict (an empty one gives None); other values stay as they are. */
  function Clean(j: Json): Json {
    if !j.Dict? then j
    else if j.fields == map[] then Null
    else Dict(map k | k in j.fields :: if Sensitive(k) then MASK else Clean(j.fields[k]))
  }

  /** A Python dict on the heap; `Leaf` values (lists included) are never looked into. */
  class PyDict {
    var fields: map<string, Value>

    constructor (fields: map<string, Value>)
      ensures this.fields == fields
    {
      this.fields := fields;
    }
  }

  datatype Value = Leaf(json: Json) | Ref(dict: PyDict)

  /** `v` is the heap form of `j`, with all its dicts among `repr`. Sharing is allowed, cycles are not. */
  ghost predicate Models(v: Value, j: Json, repr: set<PyDict>)
    reads repr
    decreases j
  {
    match v
    case Leaf(x) => !j.Dict? && x == j
    case Ref(d) =>
      && d in repr && j.Dict? && d.fields.Keys == j.fields.Keys
      && forall k <- j.fields :: Models(d.fields[k], j.fields[k], repr)
  }

  lemma {:induction false} ModelsMonotone(v: Value, j: Json, small: set<PyDict>, large: set<PyDict>)
    requires Models(v, j, small) && small <= large
    ensures Models(v, j, large)
    decreases j
  {
    if v.Ref? {
      forall k | k in j.fields ensures Models(v.dict.fields[k], j.fields[k], large) {
        ModelsMonotone(v.dict.fields[k], j.fields[k], small, large);
      }
    }
  }

  /** The fields under `keys` have been brought into their sanitised form. */
  ghost predicate ModelsOn(fields: map<string, Value>, clean: map<string, Json>, keys: set<string>, repr: set<PyDict>)
    reads repr
  {
    keys <= fields.Keys && keys <= clean.Keys && forall k <- keys :: Models(fields[k], clean[k], repr)
  }

  lemma ModelsOnMonotone(
    fields: map<string, Value>, clean: map<string, Json>, keys: set<string>, small: set<PyDict>, large: set<PyDict>)
    requires ModelsOn(fields, clean, keys, small) && small <= large
    ensures ModelsOn(fields, clean, keys, large)
  {
    forall k | k in keys ensures Models(fields[k], clean[k], large) {
      ModelsMonotone(fields[k], clean[k], small, large);
    }
  }

  /** The new value of a field. */
  method SanitizeField(key: string, value: Value, ghost j: Json, ghost repr: set<PyDict>)
    returns (sanitized: Value, ghost made: set<PyDict>)
    requires Models(value, j, repr)
    ensures fresh(made) && Models(sanitized, if Sensitive(key) then MASK else Clean(j), made)
    decreases j, 4
  {
    made := {};
    if Sensitive(key) {
      sanitized := Leaf(MASK);
    } else if value.Ref? {
      var inner;
      inner, made := SanitizeData(value.dict, j, repr);
      sanitized := if inner == null then Leaf(Null) else Ref(inner);
    } else {
      sanitized := value;
    }
  }

  /** One iteration of the loop: overwrite one field of the copy. */
  method ReplaceField(
    copy: PyDict, key: string, ghost tree: map<string, Json>, ghost done: set<string>, ghost made: set<PyDict>,
    ghost repr: set<PyDict>)
    returns (ghost made': set<PyDict>)
    requires tree != map[] && key in tree && key !in done && copy !in made && copy !in repr
    requires key in copy.fields && Models(copy.fields[key], tree[key], repr)
    requires ModelsOn(copy.fields, Clean(Dict(tree)).fields, done, made)
    modifies copy
    ensures made <= made' && fresh(made' - made) && copy !in made'
    ensures key in copy.fields && copy.fields == old(copy.fields)[key := copy.fields[key]]
    ensures ModelsOn(copy.fields, Clean(Dict(tree)).fields, done + {key}, made')
    decreases Dict(tree), 0
  {
    var value, more := SanitizeField(key, copy.fields[key], tree[key], repr);
    made' := made + more;
    ModelsOnMonotone(copy.fields, Clean(Dict(tree)).fields, done, made, made');
    ModelsMonotone(value, Clean(Dict(tree)).fields[key], more, made');
    copy.fields := copy.fields[key := value];
  }

  /** The loop over the keys of the copy. */
  method SanitizeFields(copy: PyDict, ghost tree: Json, ghost repr: set<PyDict>) returns (ghost nested: set<PyDict>)
    requires tree.Dict? && tree.fields != map[] && copy !in repr && copy.fields.Keys == tree.fields.Keys
    requires ModelsOn(copy.fields, tree.fields, tree.fields.Keys, repr)
    modifies copy
    ensures fresh(nested) && copy.fields.Keys == tree.fields.Keys
    ensures ModelsOn(copy.fields, Clean(tree).fields, tree.fields.Keys, nested)
    decreases tree, 1
  {
    nested := {};
    var rest := copy.fields.Keys;
    while rest != {}
      invariant fresh(nested)
      invariant rest <= tree.fields.Keys == copy.fields.Keys
      invariant forall k <- rest :: copy.fields[k] == old(copy.fields)[k]
      invariant ModelsOn(copy.fields, Clean(tree).fields, tree.fields.Keys - rest, nested)
      decreases rest
    {
      var key :| key in rest;
      nested := ReplaceField(copy, key, tree.fields, tree.fields.Keys - rest, nested, repr);
      assert tree.fields.Keys - (rest - {key}) == tree.fields.Keys - rest + {key};
      rest := rest - {key};
    }
  }

  /** The shallow copy, then its fields. */
  method SanitizeCopy(data: PyDict, ghost tree: Json, ghost repr: set<PyDict>)
    returns (copy: PyDict, ghost made: set<PyDict>)
    requires Models(Ref(data), tree, repr) && tree.fields != map[]
    ensures fresh(made) && Models(Ref(copy), Clean(tree), made)
    decreases tree, 2
  {
    copy := new PyDict(data.fields);
    ghost var nested := SanitizeFields(copy, tree, repr);
    made := nested + {copy};
    ModelsOnMonotone(copy.fields, Clean(tree).fields, tree.fields.Keys, nested, made);
  }

  /**
   _sanitize_data. The method has no modifies clause, so neither the input nor any other
   existing dict changes, and every dict of the result is new.
   */
  method SanitizeData(data: PyDict?, ghost tree: Json, ghost repr: set<PyDict>)
    returns (sanitized: PyDict?, ghost made: set<PyDict>)
    requires if data == null then tree == Null else Models(Ref(data), tree, repr)
    ensures fresh(made)
    ensures if sanitized == null then Clean(tree) == Null else Models(Ref(sanitized), Clean(tree), made)
    decreases tree, 3
  {
    if data == null || data.fields == map[] {
      sanitized, made := null, {};
    } else {
      sanitized, made := SanitizeCopy(data, tree, repr);
    }
  }

  /** The value reached by following keys through nested dicts. */
  function Get(j: Json, path: seq<string>): Option<Json> {
    if path == [] then Some(j)
    else if j.Dict? && path[0] in j.fields then Get(j.fields[path[0]], path[1..])
    else None
  }

  /**
   Redaction at every depth. Along a path whose inner keys are harmless, the last key decides: a
   sensitive one holds the mask, whatever it held. Under a harmless one a value that is no dict,
   a list included, is untouched, an empty dict becomes None, and any other dict is redacted in
   turn and keeps its keys.
   */
  lemma {:induction false} RedactionAtDepth(j: Json, path: seq<string>)
    requires Get(j, path).Some? && forall i :: 0 <= i < |path| - 1 ==> !Sensitive(path[i])
    ensures var value, result := Get(j, path).value, Get(Clean(j), path);
            if path != [] && Sensitive(path[|path| - 1]) then result == Some(Str("***REDACTED***"))
            else if !value.Dict? then result == Some(value)
            else if value.fields == map[] then result == Some(Null)
            else && result == Some(Clean(value))
                 && result.value.Dict? && result.value.fields.Keys == value.fields.Keys
  {
    if |path| > 1 {
      RedactionAtDepth(j.fields[path[0]], path[1..]);
    }
  }

  /**
   Along dict keys nothing sensitive is left and nothing is invented: every such path of the
   result was in the input. Paths do not enter lists.
   */
  lemma {:induction false} DictPathsMasked(j: Json, path: seq<string>)
    requires Get(Clean(j), path).Some?
    ensures Get(j, path).Some?
    ensures forall i :: 0 <= i < |path| && Sensitive(path[i]) ==> i == |path| - 1 && Get(Clean(j), path) == Some(MASK)
    ensures (forall i :: 0 <= i < |path| ==> !Sensitive(path[i])) ==>
              Get(Clean(j), path) == Some(Clean(Get(j, path).value))
  {
    if path != [] {
      if Sensitive(path[0]) {
        assert Get(MASK, path[1..]).Some?;
      } else {
        DictPathsMasked(j.fields[path[0]], path[1..]);
      }
    }
  }

  /** The key spells one of the fifteen words somewhere, in letters of either case. */
  ghost predicate Spells(key: string, word: string) {
    exists i :: SpelledAt(key, word, i)
  }

  predicate SpelledAt(key: string, word: string, i: int) {
    0 <= i <= |key| - |word| && forall n :: i <= n < i + |word| ==> SameLetter(key[n], word[n - i])
  }

  predicate SameLetter(c: char, w: char) {
    w as int == c as int + if 'A' <= c <= 'Z' then 32 else 0
  }

  lemma SpellsIffContained(key: string, word: string)
    ensures Spells(key, word) <==> Contains(Lower(key), word)
  {
    var low := Lower(key);
    if Spells(key, word) {
      var i :| SpelledAt(key, word, i);
      forall n | i <= n < i + |word| ensures low[n] == word[n - i] {
        assert SameLetter(key[n], word[n - i]);
      }
      assert low[i..][..|word|] == word;
      assert At(low, word, i);
    }
    if Contains(low, word) {
      var i :| 0 <= i <= |low| && At(low, word, i);
      forall n | i <= n < i + |word| ensures SameLetter(key[n], word[n - i]) {
        assert low[i..][n - i] == word[n - i];
      }
      assert SpelledAt(key, word, i);
    }
  }

  /** Which keys are sensitive. */
  lemma SensitiveIff(key: string)
    ensures Sensitive(key) <==>
            exists word :: Spells(key, word) && word in [
              "password", "password_hash", "token", "access_token", "refresh_token", "api_key", "secret",
              "client_secret", "credit_card", "ssn", "card_number", "cvv", "pin", "private_key", "authorization"]
  {
    forall word ensures Spells(key, word) <==> Contains(Lower(key), word) {
      SpellsIffContained(key, word);
    }
  }

  /** Somewhere, at any depth, lists included, a sensitive key holds something else than the mask. */
  ghost predicate Exposes(j: Json) {
    match j
    case List(items) => exists item <- items :: Exposes(item)
    case Dict(fields) => exists k <- fields :: if Sensitive(k) then fields[k] != MASK else Exposes(fields[k])
    case _ => false
  }

  /** A list that harmless dict keys lead to exposes something. */
  ghost predicate ListExposes(j: Json, path: seq<string>) {
    && (forall i :: 0 <= i < |path| ==> !Sensitive(path[i]))
    && Get(j, path).Some? && Get(j, path).value.List? && Exposes(Get(j, path).value)
  }

  lemma {:induction false} ListStaysExposed(j: Json, path: seq<string>)
    requires ListExposes(j, path)
    ensures Exposes(Clean(j))
  {
    if path != [] {
      assert !Sensitive(path[0]);
      ListStaysExposed(j.fields[path[0]], path[1..]);
      assert path[0] in Clean(j).fields;
    }
  }

  lemma ListOneDeeper(j: Json, key: string, path: seq<string>)
    requires j.Dict? && key in j.fields && !Sensitive(key) && ListExposes(j.fields[key], path)
    ensures ListExposes(j, [key] + path)
  {
    assert ([key] + path)[1..] == path;
  }

  lemma {:induction false} ExposedListFound(j: Json) returns (path: seq<string>)
    requires Exposes(Clean(j))
    ensures ListExposes(j, path)
    decreases j
  {
    path := [];
    if j.Dict? {
      var fields := Clean(j).fields;
      var k :| k in fields && if Sensitive(k) then fields[k] != MASK else Exposes(fields[k]);
      var rest := ExposedListFound(j.fields[k]);
      path := [k] + rest;
      ListOneDeeper(j, k, rest);
    }
  }

  /** The redaction leaves a sensitive value in place iff it lies inside a list that harmless keys lead to. */
  lemma ExposedIffInList(j: Json)
    ensures Exposes(Clean(j)) <==> exists path :: ListExposes(j, path)
  {
    if Exposes(Clean(j)) {
      var path := ExposedListFound(j);
    }
    forall path | ListExposes(j, path) ensures Exposes(Clean(j)) {
      ListStaysExposed(j, path);
    }
  }

  lemma PasswordIsSensitive()
    ensures Sensitive("password")
  {
    assert Lower("password") == "password";
    assert At("password", "password", 0);
    assert "password" in SENSITIVE_FIELDS && Contains("password", "password");
  }

  /** For example, a dict in a list goes through unchanged, with its password. */
  lemma PasswordInList(key: string, password: Json)
    requires !Sensitive(key) && password != MASK
    ensures var data := Dict(map[key := List([Dict(map["password" := password])])]);
            Clean(data) == data && Exposes(Clean(data))
  {
    var entry := Dict(map["password" := password]);
    var data := Dict(map[key := List([entry])]);
    PasswordIsSensitive();
    assert "password" in entry.fields;
    assert Exposes(entry);
    assert entry in data.fields[key].items;
    assert key in data.fields;
    assert Clean(data).fields == data.fields;
  }

  lemma {:induction false} CleanIdempotent(j: Json)
    ensures Clean(Clean(j)) == Clean(j)
    decreases j
  {
    if j.Dict? && j.fields != map[] {
      var c := Clean(j);
      var k0 :| k0 in j.fields;
      assert k0 in c.fields;
      forall k | k in c.fields ensures Clean(c).fields[k] == c.fields[k] {
        CleanIdempotent(j.fields[k]);
      }
      assert Clean(c).fields == c.fields;
    }
  }

  // ---------------------------------------------------------------- Python equality

  /** Python compares booleans, integers and floats by value: True == 1 == 1.0. */
  function Norm(j: Json): Json {
    match j
    case Bool(b) => Float(if b then 1.0 else 0.0)
    case Int(i) => Float(i as real)
    case List(items) => List(seq(|items|, i requires 0 <= i < |items| => Norm(items[i])))
    case Dict(fields) => Dict(map k | k in fields :: Norm(fields[k]))
    case _ => j
  }

  predicate PyEq(a: Json, b: Json) {
    Norm(a) == Norm(b)
  }

  predicate IsNumeric(j: Json) {
    j.Bool? || j.Int? || j.Float?
  }

  function NumericValue(j: Json): real
    requires IsNumeric(j)
  {
    match j
    case Bool(b) => if b then 1.0 else 0.0
    case Int(i) => i as real
    case Float(r) => r
  }

  /** Python equality, kind by kind: booleans, integers and floats by value, all else structurally. */
  lemma PyEqMeaning(a: Json, b: Json)
    ensures a.Null? ==> (PyEq(a, b) <==> b.Null?)
    ensures a.Str? ==> (PyEq(a, b) <==> b.Str? && a.s == b.s)
    ensures IsNumeric(a) ==> (PyEq(a, b) <==> IsNumeric(b) && NumericValue(a) == NumericValue(b))
    ensures a.List? ==> (PyEq(a, b) <==> b.List? && |a.items| == |b.items| &&
                                         forall i :: 0 <= i < |a.items| ==> PyEq(a.items[i], b.items[i]))
    ensures a.Dict? ==> (PyEq(a, b) <==> b.Dict? && a.fields.Keys == b.fields.Keys &&
                                         forall k <- a.fields :: PyEq(a.fields[k], b.fields[k]))
  {
    if a.Dict? && b.Dict? {
      NormFields(a, b);
    }
    if a.List? && b.List? {
      NormItems(a.items, b.items);
    }
  }

  lemma NormItems(a: seq<Json>, b: seq<Json>)
    ensures PyEq(List(a), List(b)) <==> |a| == |b| && forall i :: 0 <= i < |a| ==> PyEq(a[i], b[i])
  {
    var x, y := Norm(List(a)).items, Norm(List(b)).items;
    assert |x| == |a| && |y| == |b|;
    if |a| == |b| {
      forall i | 0 <= i < |a| ensures x[i] == y[i] <==> PyEq(a[i], b[i]) {
        assert x[i] == Norm(a[i]) && y[i] == Norm(b[i]);
      }
      assert x == y <==> forall i :: 0 <= i < |a| ==> x[i] == y[i];
    }
  }

  lemma NormFields(a: Json, b: Json)
    requires a.Dict? && b.Dict?
    ensures PyEq(a, b) <==>
            a.fields.Keys == b.fields.Keys && forall k <- a.fields :: PyEq(a.fields[k], b.fields[k])
  {
    var x, y := Norm(a).fields, Norm(b).fields;
    assert x.Keys == a.fields.Keys && y.Keys == b.fields.Keys;
    if a.fields.Keys == b.fields.Keys && forall k <- a.fields :: PyEq(a.fields[k], b.fields[k]) {
      assert forall k <- x :: x[k] == y[k];
      assert x == y;
    }
  }

  // ---------------------------------------------------------------- changed fields

  type Snapshot = map<string, Json>

  function DictGet(m: Snapshot, key: string): Json {
    if key in m then m[key] else Null
  }

  /** changed_fields; None unless both snapshots are non-empty and the operation is an update. */
  function ChangedFields(before: Snapshot, after: Snapshot, operation: string): Option<set<string>> {
    if before != map[] && after != map[] && operation == "UPDATE"
    then Some(set k | k in before.Keys + after.Keys && !PyEq(DictGet(before, k), DictGet(after, k)))
    else None
  }

  /**
   Which keys are listed: those of both whose values differ in Python, and those of one only
   that hold something else than None. There is no list unless this is an update between two
   non-empty snapshots.
   */
  lemma ListedIff(before: Snapshot, after: Snapshot, operation: string, key: string)
    ensures ChangedFields(before, after, operation) == None <==>
            operation != "UPDATE" || |before| == 0 || |after| == 0
    ensures ChangedFields(before, after, operation).Some? ==>
              (key in ChangedFields(before, after, operation).value <==>
               || (key in before && key in after && !PyEq(before[key], after[key]))
               || (key in before && key !in after && !before[key].Null?)
               || (key !in before && key in after && !after[key].Null?))
  {
    if key in before {
      PyEqMeaning(before[key], DictGet(after, key));
    }
    if key in after {
      PyEqMeaning(DictGet(before, key), after[key]);
    }
  }

  /** In particular a changed string is listed, and so is a number that turns into a string. */
  lemma ChangedStringListed(before: Snapshot, after: Snapshot, key: string)
    requires key in before && key in after && before[key].Str? && before[key] != after[key]
    ensures ChangedFields(before, after, "UPDATE").Some? && key in ChangedFields(before, after, "UPDATE").value
    ensures ChangedFields(after, before, "UPDATE").Some? && key in ChangedFields(after, before, "UPDATE").value
  {
    ListedIff(before, after, "UPDATE", key);
    PyEqMeaning(before[key], after[key]);
  }

  /** Take the listed fields from `after`; a listed field that `after` lacks is dropped. */
  function Patch(before: Snapshot, after: Snapshot, fields: set<string>): Snapshot {
    map k | k in before.Keys + after.Keys && (if k in fields then k in after else k in before) ::
      if k in fields then after[k] else before[k]
  }

  ghost predicate GetEqual(a: Snapshot, b: Snapshot) {
    forall k :: PyEq(DictGet(a, k), DictGet(b, k))
  }

  /** The changed fields are a patch from `before` to `after`, and every one of them is needed. */
  lemma DiffIsPatch(before: Snapshot, after: Snapshot)
    requires before != map[] && after != map[]
    ensures var fields := ChangedFields(before, after, "UPDATE").value;
            && GetEqual(Patch(before, after, fields), after)
            && forall some :: GetEqual(Patch(before, after, some), after) ==> fields <= some
  {
    var fields := ChangedFields(before, after, "UPDATE").value;
    forall some | GetEqual(Patch(before, after, some), after) ensures fields <= some {
      forall k | k in fields ensures k in some {
        assert PyEq(DictGet(Patch(before, after, some), k), DictGet(after, k));
      }
    }
  }

  /** No key of both changes to a Python-equal value, and no key that only one of them has holds None. */
  ghost predicate NoHiddenChange(before: Snapshot, after: Snapshot) {
    && (forall k :: k in before && k in after && PyEq(before[k], after[k]) ==> before[k] == after[k])
    && (forall k :: k in before && k !in after ==> before[k] != Null)
    && (forall k :: k in after && k !in before ==> after[k] != Null)
  }

  /** When the patch is exact, not just get-equal. */
  lemma PatchIsExactIff(before: Snapshot, after: Snapshot)
    requires before != map[] && after != map[]
    ensures Patch(before, after, ChangedFields(before, after, "UPDATE").value) == after <==>
            NoHiddenChange(before, after)
  {
    var p := Patch(before, after, ChangedFields(before, after, "UPDATE").value);
    if NoHiddenChange(before, after) {
      assert forall k :: k in p <==> k in after;
      assert p == after;
    }
  }

  /** For example, a flag that goes from 1 to True is not listed. */
  lemma TypeChangeUnlisted(key: string)
    ensures ChangedFields(map[key := Int(1)], map[key := Bool(true)], "UPDATE") == Some({})
    ensures Patch(map[key := Int(1)], map[key := Bool(true)], {}) != map[key := Bool(true)]
  {
    var before, after: Snapshot := map[key := Int(1)], map[key := Bool(true)];
    assert PyEq(DictGet(before, key), DictGet(after, key));
    assert ChangedFields(before, after, "UPDATE").value == {};
    assert key in Patch(before, after, {}) && Patch(before, after, {})[key] == Int(1);
  }

  /** A chain of updates, of which the client diffs each. */
  predicate Chain(versions: seq<Snapshot>) {
    versions != [] && forall i :: 0 <= i < |versions| ==> versions[i] != map[]
  }

  /** Folding the recorded fields of a chain over the snapshots that are shown of its versions. */
  function Replay(shown: seq<Snapshot>, versions: seq<Snapshot>): Snapshot
    requires Chain(versions) && |shown| == |versions|
  {
    var n := |versions| - 1;
    if n == 0 then shown[0]
    else
      var fields := ChangedFields(versions[n - 1], versions[n], "UPDATE").value;
      Patch(Replay(shown[..n], versions[..n]), shown[n], fields)
  }

  /** The last version whose update listed the key, or the first version. */
  function LastListed(versions: seq<Snapshot>, key: string): (i: nat)
    requires Chain(versions)
    ensures i < |versions|
  {
    var n := |versions| - 1;
    if n == 0 then 0
    else if key in ChangedFields(versions[n - 1], versions[n], "UPDATE").value then n
    else LastListed(versions[..n], key)
  }

  /** The replay shows each key as of its last listing; since then it has had Python-equal values. */
  lemma {:induction false} ReplayAt(shown: seq<Snapshot>, versions: seq<Snapshot>, key: string)
    requires Chain(versions) && |shown| == |versions|
    ensures var i, replay := LastListed(versions, key), Replay(shown, versions);
            && DictGet(replay, key) == DictGet(shown[i], key)
            && (key in replay <==> key in shown[i])
            && PyEq(DictGet(versions[i], key), DictGet(versions[|versions| - 1], key))
  {
    var n := |versions| - 1;
    if n > 0 {
      ReplayAt(shown[..n], versions[..n], key);
    }
  }

  /** The recorded changes rebuild the last version from the first. */
  lemma ReplayRebuildsLast(versions: seq<Snapshot>)
    requires Chain(versions)
    ensures GetEqual(Replay(versions, versions), versions[|versions| - 1])
  {
    forall key ensures PyEq(DictGet(Replay(versions, versions), key), DictGet(versions[|versions| - 1], key)) {
      ReplayAt(versions, versions, key);
    }
  }

  // ---------------------------------------------------------------- redacted snapshots

  lemma {:induction false} CleanRespectsPyEq(a: Json, b: Json)
    requires PyEq(a, b)
    ensures PyEq(Clean(a), Clean(b))
    decreases a
  {
    if a.Dict? && b.Dict? {
      NormFields(a, b);
      if a.fields != map[] {
        forall k | k in a.fields ensures PyEq(Clean(a).fields[k], Clean(b).fields[k]) {
          CleanRespectsPyEq(a.fields[k], b.fields[k]);
        }
        NormFields(Clean(a), Clean(b));
      }
    }
  }

  /** The snapshot that is recorded; the fields are computed from the raw ones. */
  function Sanitized(v: Snapshot): Snapshot {
    match Clean(Dict(v))
    case Dict(fields) => fields
    case _ => map[]
  }

  /** On an unlisted key the sanitised snapshots agree, unless it is sensitive and only one of them has it. */
  lemma SanitizedAgreeOffDiff(before: Snapshot, after: Snapshot, key: string)
    requires PyEq(DictGet(before, key), DictGet(after, key))
    ensures PyEq(DictGet(Sanitized(before), key), DictGet(Sanitized(after), key)) <==>
            (Sensitive(key) ==> (key in before <==> key in after))
  {
    CleanRespectsPyEq(DictGet(before, key), DictGet(after, key));
  }

  function AllSanitized(versions: seq<Snapshot>): (shown: seq<Snapshot>)
    ensures |shown| == |versions| && forall i :: 0 <= i < |versions| ==> shown[i] == Sanitized(versions[i])
  {
    seq(|versions|, i requires 0 <= i < |versions| => Sanitized(versions[i]))
  }

  /**
   What the trail records rebuilds the last sanitised version iff no sensitive key has come or
   gone with value None since it was last listed.
   */
  lemma RecordedReplayIff(versions: seq<Snapshot>)
    requires Chain(versions)
    ensures var last := versions[|versions| - 1];
            GetEqual(Replay(AllSanitized(versions), versions), Sanitized(last)) <==>
            forall key :: Sensitive(key) ==> (key in versions[LastListed(versions, key)] <==> key in last)
  {
    var last, replay := versions[|versions| - 1], Replay(AllSanitized(versions), versions);
    forall key
      ensures PyEq(DictGet(replay, key), DictGet(Sanitized(last), key)) <==>
              (Sensitive(key) ==> (key in versions[LastListed(versions, key)] <==> key in last))
    {
      ReplayAt(AllSanitized(versions), versions, key);
      SanitizedAgreeOffDiff(versions[LastListed(versions, key)], last, key);
    }
  }

  /** For example, a password field of None that is dropped stays in the replay, masked. */
  lemma DroppedNonePassword(key: string, other: string, value: Json)
    requires Sensitive(key) && key != other
    ensures var versions := [map[key := Null, other := value], map[other := value]];
            && key in versions[0] && other in versions[1]
            && !GetEqual(Replay(AllSanitized(versions), versions), Sanitized(versions[1]))
            && DictGet(Replay(AllSanitized(versions), versions), key) == MASK
  {
    var versions: seq<Snapshot> := [map[key := Null, other := value], map[other := value]];
    assert Chain(versions) by {
      assert key in versions[0] && other in versions[1];
    }
    assert versions[..1] == [versions[0]];
    assert LastListed(versions, key) == 0 by {
      assert DictGet(versions[0], key) == DictGet(versions[1], key);
    }
    RecordedReplayIff(versions);
    ReplayAt(AllSanitized(versions), versions, key);
  }
}
