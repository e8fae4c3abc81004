/**
 What of a failed job's context may be stored: plain data without sensitive keys. Values are finite
 trees; an object is the list of its own entries.
 */
module DeadLetter {
  import opened Basics

  datatype Value =
    | Null
    | String(text: string)
    | Number(number: real)
    | Boolean(flag: bool)
    | Date(iso: Option<string>)      // None: an invalid date, which has no ISO text
    | Array(items: seq<Value>)
    | Object(entries: seq<Entry>)
    | Unsupported                    // undefined, functions, symbols and bigints

  datatype Entry = Entry(key: string, value: Value)

  datatype Error = SensitiveKey(key: string) | InvalidDate

  // ----- Sensitive keys

  const SENSITIVE_WORDS: seq<string> :=
    ["authorization", "cookie", "password", "payload", "raw", "secret", "session", "signature", "token"]

  function Lower(c: char): char {
    if 'A' <= c <= 'Z' then c + 'a' - 'A' else c
  }

  predicate WordAt(s: string, word: string, i: nat) {
    i + |word| <= |s| && forall j :: 0 <= j < |word| ==> Lower(s[i + j]) == word[j]
  }

  predicate IsSensitive(key: string) {
    exists w, i :: 0 <= w < |SENSITIVE_WORDS| && 0 <= i < |key| && WordAt(key, SENSITIVE_WORDS[w], i)
  }

  /** The same letter, or the capital and the small form of one ASCII letter. */
  predicate SameButCase(c: char, d: char) {
    var m, n := c as int, d as int;
    m == n || (65 <= m <= 90 && n == m + 32) || (65 <= n <= 90 && m == n + 32)
  }

  predicate Spells(text: string, word: string) {
    |text| == |word| && forall j :: 0 <= j < |text| ==> SameButCase(text[j], word[j])
  }

  lemma WordsAreSmall(w: nat)
    requires w < |SENSITIVE_WORDS|
    ensures SENSITIVE_WORDS[w] != ""
    ensures forall j :: 0 <= j < |SENSITIVE_WORDS[w]| ==> 97 <= SENSITIVE_WORDS[w][j] as int <= 122
  {}

  lemma SmallLetter(c: char, d: char)
    requires 97 <= d as int <= 122
    ensures Lower(c) == d <==> SameButCase(c, d)
  {}

  lemma WordAtSpells(key: string, w: nat, i: nat)
    requires w < |SENSITIVE_WORDS|
    ensures var word := SENSITIVE_WORDS[w];
            WordAt(key, word, i) <==> i + |word| <= |key| && Spells(key[i..i + |word|], word)
  {
    hide Lower, SameButCase;
    var word := SENSITIVE_WORDS[w];
    WordsAreSmall(w);
    if i + |word| <= |key| {
      var text := key[i..i + |word|];
      forall j | 0 <= j < |word| ensures Lower(key[i + j]) == word[j] <==> SameButCase(text[j], word[j]) {
        SmallLetter(key[i + j], word[j]);
      }
    }
  }

  /** A key is sensitive exactly if one of the nine words stands in it, in whatever mixture of capital and small letters. */
  lemma SensitiveExactly(key: string)
    ensures IsSensitive(key) <==> exists a, text, b, word ::
      && key == a + text + b && Spells(text, word)
      && word in ["authorization", "cookie", "password", "payload", "raw", "secret", "session", "signature", "token"]
  {
    hide WordAt, Spells;
    if IsSensitive(key) {
      var w, i :| 0 <= w < |SENSITIVE_WORDS| && 0 <= i < |key| && WordAt(key, SENSITIVE_WORDS[w], i);
      var word := SENSITIVE_WORDS[w];
      WordAtSpells(key, w, i);
      assert key == key[..i] + key[i..i + |word|] + key[i + |word|..];
      assert word in SENSITIVE_WORDS;
    }
    if a, text, b, word :| key == a + text + b && Spells(text, word) && word in SENSITIVE_WORDS {
      var w :| 0 <= w < |SENSITIVE_WORDS| && SENSITIVE_WORDS[w] == word;
      Holds(key, a, text, b, w);
    }
  }

  lemma Holds(key: string, a: string, text: string, b: string, w: nat)
    requires key == a + text + b && w < |SENSITIVE_WORDS| && Spells(text, SENSITIVE_WORDS[w])
    ensures IsSensitive(key)
  {
    WordsAreSmall(w);
    WordAtSpells(key, w, |a|);
    assert key[|a|..|a| + |text|] == text;
    assert WordAt(key, SENSITIVE_WORDS[w], |a|);
  }

  /** Assigning to this key sets the prototype of the copy and adds no entry to it. */
  const PROTO := "__proto__"

  // ----- The sanitizer as a function

  function SanitizeValue(value: Value, allowTopLevelDrop: bool, depth: nat): Result<Option<Value>, Error>
    decreases value, 1
  {
    match value
    case Null | String(_) | Number(_) | Boolean(_) => Ok(Some(value))
    case Date(iso) => if iso.Some? then Ok(Some(String(iso.value))) else Err(InvalidDate)
    case Array(items) =>
      (match SanitizeItems(items, allowTopLevelDrop, depth)
       case Ok(safe) => Ok(Some(Array(safe)))
       case Err(e) => Err(e))
    case Object(entries) =>
      (match SanitizeEntries(entries, allowTopLevelDrop, depth)
       case Ok(safe) => Ok(Some(Object(safe)))
       case Err(e) => Err(e))
    case Unsupported => Ok(None)
  }

  function Prepend<T>(done: seq<T>, rest: Result<seq<T>, Error>): Result<seq<T>, Error> {
    if rest.Ok? then Ok(done + rest.value) else rest
  }

  lemma PrependTwice<T>(a: seq<T>, b: seq<T>, rest: Result<seq<T>, Error>)
    ensures Prepend(a, Prepend(b, rest)) == Prepend(a + b, rest)
    ensures Prepend([], rest) == rest && Prepend(a, Ok([])) == Ok(a)
  {
    assert a + [] == a;
    if rest.Ok? {
      assert a + (b + rest.value) == a + b + rest.value;
      assert [] + rest.value == rest.value;
    }
  }

  function SanitizeItems(items: seq<Value>, allowTopLevelDrop: bool, depth: nat): Result<seq<Value>, Error>
    decreases items, 0
  {
    if items == [] then Ok([])
    else
      match SanitizeValue(items[0], allowTopLevelDrop, depth)
      case Err(e) => Err(e)
      case Ok(safe) =>
        Prepend(if safe.Some? then [safe.value] else [], SanitizeItems(items[1..], allowTopLevelDrop, depth))
  }

  function SanitizeEntries(entries: seq<Entry>, allowTopLevelDrop: bool, depth: nat): Result<seq<Entry>, Error>
    decreases entries, 0
  {
    if entries == [] then Ok([])
    else if IsSensitive(entries[0].key) then
      if allowTopLevelDrop && depth == 0 then SanitizeEntries(entries[1..], allowTopLevelDrop, depth)
      else Err(SensitiveKey(entries[0].key))
    else
      match SanitizeValue(entries[0].value, allowTopLevelDrop, depth + 1)
      case Err(e) => Err(e)
      case Ok(safe) =>
        Prepend(Assign([], entries[0].key, safe), SanitizeEntries(entries[1..], allowTopLevelDrop, depth))
  }

  /** `if (safeValue !== undefined) safeContext[key] = safeValue` for a key not assigned before. */
  function Assign(context: seq<Entry>, key: string, safe: Option<Value>): seq<Entry> {
    if safe.None? || key == PROTO then context else context + [Entry(key, safe.value)]
  }

  // ----- The sanitizer as the loops it is

  method SanitizeObjectLoop(context: seq<Entry>, allowTopLevelDrop: bool, depth: nat)
    returns (result: Result<seq<Entry>, Error>)
    ensures result == SanitizeEntries(context, allowTopLevelDrop, depth)
    decreases context, 0
  {
    var safeContext: seq<Entry> := [];
    var i := 0;
    assert context[0..] == context;
    PrependTwice([], [], SanitizeEntries(context, allowTopLevelDrop, depth));
    while i < |context|
      invariant 0 <= i <= |context|
      invariant SanitizeEntries(context, allowTopLevelDrop, depth)
             == Prepend(safeContext, SanitizeEntries(context[i..], allowTopLevelDrop, depth))
    {
      var entry := context[i];
      assert context[i..][1..] == context[i + 1..];
      if IsSensitive(entry.key) {
        if !(allowTopLevelDrop && depth == 0) {
          return Err(SensitiveKey(entry.key));
        }
      } else {
        var safeValue := SanitizeValueLoop(entry.value, allowTopLevelDrop, depth + 1);
        if safeValue.Err? {
          return Err(safeValue.error);
        }
        PrependTwice(safeContext, Assign([], entry.key, safeValue.value),
                     SanitizeEntries(context[i + 1..], allowTopLevelDrop, depth));
        assert safeContext + Assign([], entry.key, safeValue.value) == Assign(safeContext, entry.key, safeValue.value);
        safeContext := Assign(safeContext, entry.key, safeValue.value);
      }
      i := i + 1;
    }
    PrependTwice(safeContext, [], Ok([]));
    return Ok(safeContext);
  }

  method SanitizeValueLoop(value: Value, allowTopLevelDrop: bool, depth: nat)
    returns (result: Result<Option<Value>, Error>)
    ensures result == SanitizeValue(value, allowTopLevelDrop, depth)
    decreases value, 1
  {
    match value
    case Null | String(_) | Number(_) | Boolean(_) => return Ok(Some(value));
    case Date(iso) => return if iso.Some? then Ok(Some(String(iso.value))) else Err(InvalidDate);
    case Unsupported => return Ok(None);
    case Object(entries) =>
      var safe := SanitizeObjectLoop(entries, allowTopLevelDrop, depth);
      return if safe.Ok? then Ok(Some(Object(safe.value))) else Err(safe.error);
    case Array(items) =>
      var safe: seq<Value> := [];
      var i := 0;
      assert items[0..] == items;
      PrependTwice([], [], SanitizeItems(items, allowTopLevelDrop, depth));
      while i < |items|
        invariant 0 <= i <= |items|
        invariant SanitizeItems(items, allowTopLevelDrop, depth)
               == Prepend(safe, SanitizeItems(items[i..], allowTopLevelDrop, depth))
      {
        assert items[i..][1..] == items[i + 1..];
        var item := SanitizeValueLoop(items[i], allowTopLevelDrop, depth);
        if item.Err? {
          return Err(item.error);
        }
        var kept := if item.value.Some? then [item.value.value] else [];
        PrependTwice(safe, kept, SanitizeItems(items[i + 1..], allowTopLevelDrop, depth));
        safe := safe + kept;
        i := i + 1;
      }
      PrependTwice(safe, [], Ok([]));
      return Ok(Some(Array(safe)));
  }

  /** Such keys are dropped or refused, whatever they hold: the usual spellings of an access token and of a header. */
  lemma TokensAreNotStored(value: Value)
    ensures forall key :: key in ["accessToken", "Authorization"] ==>
              && SanitizeEntries([Entry(key, value)], true, 0) == Ok([])
              && SanitizeEntries([Entry(key, value)], false, 0) == Err(SensitiveKey(key))
  {
    hide SanitizeEntries, IsSensitive;
    AccessToken();
    AuthorizationHeader();
    DropOrRefuse("accessToken", value);
    DropOrRefuse("Authorization", value);
  }

  lemma Capitalised(capital: string, small: string, rest: string)
    requires |capital| == |small| == 1 && SameButCase(capital[0], small[0])
    ensures Spells(capital + rest, small + rest)
  {}

  lemma AccessToken()
    ensures IsSensitive("accessToken")
  {
    hide IsSensitive, Spells;
    assert "accessToken" == "access" + "Token" + "";
    Capitalised("T", "t", "oken");
    assert "T" + "oken" == "Token" && "t" + "oken" == "token";
    Holds("accessToken", "access", "Token", "", 8);
  }

  lemma AuthorizationHeader()
    ensures IsSensitive("Authorization")
  {
    hide IsSensitive, Spells;
    Capitalised("A", "a", "uthorization");
    assert "A" + "uthorization" == "Authorization" && "a" + "uthorization" == "authorization";
    assert "Authorization" == "" + "Authorization" + "";
    Holds("Authorization", "", "Authorization", "", 0);
  }

  lemma DropOrRefuse(key: string, value: Value)
    requires IsSensitive(key)
    ensures SanitizeEntries([Entry(key, value)], true, 0) == Ok([])
    ensures SanitizeEntries([Entry(key, value)], false, 0) == Err(SensitiveKey(key))
  {
    assert [Entry(key, value)][1..] == [];
  }

  /** The error is that of the first entry that cannot be stored; those before it can. */
  lemma {:induction false} FirstFailure(entries: seq<Entry>, allow: bool, depth: nat) returns (i: nat)
    requires SanitizeEntries(entries, allow, depth).Err?
    ensures i < |entries| && SanitizeEntries(entries[..i], allow, depth).Ok?
    ensures SanitizeEntries([entries[i]], allow, depth) == SanitizeEntries(entries, allow, depth)
    decreases entries
  {
    hide IsSensitive, SanitizeValue;
    var head, tail := entries[0], entries[1..];
    assert [head][1..] == [];
    if SanitizeEntries([head], allow, depth).Err? {
      i := 0;
      assert entries[..0] == [];
    } else {
      var rest := FirstFailure(tail, allow, depth);
      i := rest + 1;
      assert entries[..i][1..] == tail[..rest] && entries[..i][0] == head;
    }
  }

  function Keys(entries: seq<Entry>): seq<string> {
    if entries == [] then [] else [entries[0].key] + Keys(entries[1..])
  }

  /** The entries that leave one in the copy. */
  function Storable(entries: seq<Entry>): seq<Entry> {
    if entries == [] then []
    else
      var head := entries[0];
      (if IsSensitive(head.key) || head.key == "__proto__" || head.value.Unsupported? then [] else [head])
      + Storable(entries[1..])
  }

  lemma OnlyUnsupportedIsLeftOut(value: Value, allow: bool, depth: nat)
    requires SanitizeValue(value, allow, depth).Ok?
    ensures SanitizeValue(value, allow, depth).value.None? <==> value.Unsupported?
  {}

  /** The copy of an object, at any depth, has its storable entries, in their order. */
  lemma {:induction false} CopyKeepsOrder(entries: seq<Entry>, allow: bool, depth: nat)
    requires SanitizeEntries(entries, allow, depth).Ok?
    ensures Keys(SanitizeEntries(entries, allow, depth).value) == Keys(Storable(entries))
    decreases entries
  {
    hide IsSensitive, SanitizeValue;
    if entries != [] {
      var head := entries[0];
      CopyKeepsOrder(entries[1..], allow, depth);
      var rest := SanitizeEntries(entries[1..], allow, depth).value;
      var storable := Storable(entries[1..]);
      assert [] + rest == rest && [] + storable == storable;
      assert ([head] + storable)[1..] == storable;
      if !IsSensitive(head.key) {
        var safe := SanitizeValue(head.value, allow, depth + 1).value;
        OnlyUnsupportedIsLeftOut(head.value, allow, depth + 1);
        if safe.Some? {
          assert ([Entry(head.key, safe.value)] + rest)[1..] == rest;
        }
      }
    }
  }

  // ----- Paths into a value

  datatype Step = Key(key: string) | Index(index: nat)

  function Lookup(entries: seq<Entry>, key: string): (r: Option<Value>)
    ensures r.Some? ==> exists i :: 0 <= i < |entries| && entries[i] == Entry(key, r.value)
    ensures r.None? ==> forall i :: 0 <= i < |entries| ==> entries[i].key != key
  {
    if entries == [] then None
    else if entries[0].key == key then assert entries[0] == Entry(key, entries[0].value); Some(entries[0].value)
    else Lookup(entries[1..], key)
  }

  function Child(value: Value, step: Step): Option<Value> {
    match (value, step)
    case (Object(entries), Key(key)) => Lookup(entries, key)
    case (Array(items), Index(i)) => if i < |items| then Some(items[i]) else None
    case _ => None
  }

  function At(value: Value, path: seq<Step>): Option<Value>
    decreases |path|
  {
    if path == [] then Some(value)
    else
      match Child(value, path[0])
      case None => None
      case Some(child) => At(child, path[1..])
  }

  /** A JavaScript object has no key twice. */
  ghost predicate WellFormed(value: Value)
    decreases value
  {
    match value
    case Array(items) => forall i :: 0 <= i < |items| ==> WellFormed(items[i])
    case Object(entries) =>
      && DistinctKeys(entries)
      && forall i :: 0 <= i < |entries| ==> WellFormed(entries[i].value)
    case _ => true
  }

  predicate DistinctKeys(entries: seq<Entry>) {
    forall i, j :: 0 <= i < j < |entries| ==> entries[i].key != entries[j].key
  }

  predicate IsSensitiveStep(step: Step) {
    step.Key? && IsSensitive(step.key)
  }

  /** The path leads to something that must not be stored: below a sensitive key, or an invalid date. */
  ghost predicate Offends(value: Value, path: seq<Step>) {
    && At(value, path).Some?
    && ((path != [] && IsSensitiveStep(path[|path| - 1])) || At(value, path).value == Date(None))
  }

  lemma OneStepDown(value: Value, path: seq<Step>)
    requires path != [] && Child(value, path[0]).Some?
    ensures At(value, path) == At(Child(value, path[0]).value, path[1..])
  {}

  // ----- When sanitizing succeeds

  lemma SanitizeItemsOk(items: seq<Value>, allow: bool, depth: nat, i: nat)
    requires SanitizeItems(items, allow, depth).Ok? && i < |items|
    ensures SanitizeValue(items[i], allow, depth).Ok?
    decreases i
  {
    if i > 0 { SanitizeItemsOk(items[1..], allow, depth, i - 1); }
  }

  lemma SanitizeEntriesOk(entries: seq<Entry>, allow: bool, depth: nat, i: nat)
    requires SanitizeEntries(entries, allow, depth).Ok? && i < |entries|
    ensures IsSensitive(entries[i].key) ==> allow && depth == 0
    ensures !IsSensitive(entries[i].key) ==> SanitizeValue(entries[i].value, allow, depth + 1).Ok?
    decreases i
  {
    if i > 0 { SanitizeEntriesOk(entries[1..], allow, depth, i - 1); }
  }

  /** Below the top level, success leaves no offending path. */
  lemma {:induction false} OkHasNoOffence(value: Value, allow: bool, depth: nat, path: seq<Step>)
    requires SanitizeValue(value, allow, depth).Ok?
    requires depth > 0 || !allow
    ensures !Offends(value, path)
    decreases |path|
  {
    hide IsSensitive;
    if path != [] && Child(value, path[0]).Some? {
      var child := Child(value, path[0]).value;
      if value.Object? {
        var i :| 0 <= i < |value.entries| && value.entries[i] == Entry(path[0].key, child);
        SanitizeEntriesOk(value.entries, allow, depth, i);
        OkHasNoOffence(child, allow, depth + 1, path[1..]);
      } else {
        SanitizeItemsOk(value.items, allow, depth, path[0].index);
        OkHasNoOffence(child, allow, depth, path[1..]);
      }
      assert |path| > 1 ==> path[1..][|path[1..]| - 1] == path[|path| - 1];
    }
  }

  /** Below the top level, a failure points at an offending path, and names its key. */
  lemma {:induction false} FailureHasOffence(value: Value, allow: bool, depth: nat) returns (path: seq<Step>)
    requires SanitizeValue(value, allow, depth).Err? && WellFormed(value)
    requires depth > 0 || !allow
    ensures Offends(value, path)
    ensures match SanitizeValue(value, allow, depth).error
            case SensitiveKey(key) => path != [] && path[|path| - 1] == Key(key)
            case InvalidDate => At(value, path) == Some(Date(None))
    decreases value, 1
  {
    match value
    case Array(items) =>
      var i, rest := FailingItem(items, allow, depth);
      path := [Index(i)] + rest;
      assert path[1..] == rest;
    case Object(entries) =>
      path := FailingEntry(entries, allow, depth);
    case _ =>
      path := [];
  }

  lemma {:induction false} FailingItem(items: seq<Value>, allow: bool, depth: nat) returns (i: nat, path: seq<Step>)
    requires SanitizeItems(items, allow, depth).Err?
    requires forall j :: 0 <= j < |items| ==> WellFormed(items[j])
    requires depth > 0 || !allow
    ensures i < |items| && Offends(items[i], path)
    ensures match SanitizeItems(items, allow, depth).error
            case SensitiveKey(key) => path != [] && path[|path| - 1] == Key(key)
            case InvalidDate => At(items[i], path) == Some(Date(None))
    decreases items, 0
  {
    if SanitizeValue(items[0], allow, depth).Err? {
      i := 0;
      path := FailureHasOffence(items[0], allow, depth);
    } else {
      i, path := FailingItem(items[1..], allow, depth);
      i := i + 1;
    }
  }

  lemma {:induction false} FailingEntry(entries: seq<Entry>, allow: bool, depth: nat) returns (path: seq<Step>)
    requires SanitizeEntries(entries, allow, depth).Err? && WellFormed(Object(entries))
    ensures Offends(Object(entries), path) && path != []
    ensures allow && depth == 0 ==> !IsSensitiveStep(path[0])
    ensures match SanitizeEntries(entries, allow, depth).error
            case SensitiveKey(key) => path[|path| - 1] == Key(key)
            case InvalidDate => At(Object(entries), path) == Some(Date(None))
    decreases entries, 0
  {
    var head, tail := entries[0], entries[1..];
    if IsSensitive(head.key) && !(allow && depth == 0) {
      path := [Key(head.key)];
    } else if !IsSensitive(head.key) && SanitizeValue(head.value, allow, depth + 1).Err? {
      var rest := FailureHasOffence(head.value, allow, depth + 1);
      path := [Key(head.key)] + rest;
      assert path[1..] == rest;
      OneStepDown(Object(entries), path);
      assert rest != [] ==> path[|path| - 1] == rest[|rest| - 1];
    } else {
      path := FailingEntry(tail, allow, depth);
      var child := Child(Object(tail), path[0]).value;
      var i :| 0 <= i < |tail| && tail[i] == Entry(path[0].key, child);
      assert entries[i + 1] == tail[i];
      assert Lookup(entries, path[0].key) == Lookup(tail, path[0].key);
      OneStepDown(Object(tail), path);
      OneStepDown(Object(entries), path);
    }
  }

  /** The path starts in a subtree that the top level drops. */
  predicate IsDropped(path: seq<Step>, allowTopLevelDrop: bool) {
    allowTopLevelDrop && path != [] && IsSensitiveStep(path[0])
  }

  /** A context is accepted exactly when nothing offends outside the subtrees that are dropped. */
  lemma SanitizeSucceeds(context: seq<Entry>, allow: bool)
    requires WellFormed(Object(context))
    ensures SanitizeEntries(context, allow, 0).Ok?
       <==> forall path :: Offends(Object(context), path) ==> IsDropped(path, allow)
  {
    if SanitizeEntries(context, allow, 0).Err? {
      var path := FailingEntry(context, allow, 0);
      assert Offends(Object(context), path) && !IsDropped(path, allow);
    } else {
      forall path | Offends(Object(context), path)
        ensures IsDropped(path, allow)
      {
        TopLevelOk(context, allow, path);
      }
    }
  }

  lemma TopLevelOk(context: seq<Entry>, allow: bool, path: seq<Step>)
    requires SanitizeEntries(context, allow, 0).Ok? && Offends(Object(context), path)
    ensures IsDropped(path, allow)
  {
    hide IsSensitive;
    var child := Child(Object(context), path[0]).value;
    var i :| 0 <= i < |context| && context[i] == Entry(path[0].key, child);
    SanitizeEntriesOk(context, allow, 0, i);
    if !IsSensitive(path[0].key) {
      assert |path| > 1 ==> path[1..][|path[1..]| - 1] == path[|path| - 1];
      OkHasNoOffence(child, allow, 1, path[1..]);
    }
  }

  // ----- What is kept, and where

  /** How many of the items the copy keeps. */
  function CountKept(items: seq<Value>): nat {
    if items == [] then 0 else (if items[0].Unsupported? then 0 else 1) + CountKept(items[1..])
  }

  /** The place of a path in the copy: array indexes close up over the items left out. */
  function Moved(value: Value, path: seq<Step>): seq<Step>
    decreases |path|
  {
    if path == [] || Child(value, path[0]).None? then path
    else
      var step := if value.Array? then Index(CountKept(value.items[..path[0].index])) else path[0];
      [step] + Moved(Child(value, path[0]).value, path[1..])
  }

  /** The copy of one node: dates become text, containers stay containers of their kind. */
  predicate IsCopy(original: Value, copy: Value) {
    match original
    case Date(iso) => iso.Some? && copy == String(iso.value)
    case Array(_) => copy.Array?
    case Object(_) => copy.Object?
    case Unsupported => false
    case _ => copy == original
  }

  predicate Reaches(path: seq<Step>) {
    forall i :: 0 <= i < |path| ==> path[i] != Key(PROTO)
  }

  lemma {:induction false} ItemKept(items: seq<Value>, allow: bool, depth: nat, i: nat)
    requires SanitizeItems(items, allow, depth).Ok? && i < |items| && !items[i].Unsupported?
    ensures SanitizeValue(items[i], allow, depth).Ok?
    ensures var safe, j := SanitizeItems(items, allow, depth).value, CountKept(items[..i]);
            j < |safe| && SanitizeValue(items[i], allow, depth).value == Some(safe[j])
    decreases i
  {
    hide IsSensitive;
    if i > 0 {
      ItemKept(items[1..], allow, depth, i - 1);
      assert items[..i][1..] == items[1..][..i - 1];
    }
  }

  lemma {:induction false} ItemComesFrom(items: seq<Value>, allow: bool, depth: nat, j: nat) returns (i: nat)
    requires SanitizeItems(items, allow, depth).Ok? && j < |SanitizeItems(items, allow, depth).value|
    ensures i < |items| && !items[i].Unsupported? && CountKept(items[..i]) == j
    decreases items
  {
    if !items[0].Unsupported? && j == 0 {
      i := 0;
    } else {
      var before := if items[0].Unsupported? then 0 else 1;
      var rest := ItemComesFrom(items[1..], allow, depth, j - before);
      i := rest + 1;
      assert items[..i][1..] == items[1..][..rest];
    }
  }

  /** The entry a key has in the copy. */
  lemma {:induction false} EntryKept(entries: seq<Entry>, allow: bool, depth: nat, key: string)
    requires SanitizeEntries(entries, allow, depth).Ok? && DistinctKeys(entries)
    ensures var copied := Lookup(SanitizeEntries(entries, allow, depth).value, key);
            var original := Lookup(entries, key);
            if original.None? || IsSensitive(key) || key == PROTO then copied.None?
            else SanitizeValue(original.value, allow, depth + 1) == Ok(copied)
    decreases entries
  {
    hide IsSensitive, SanitizeValue;
    if entries != [] {
      var tail := entries[1..];
      EntryKept(tail, allow, depth, key);
      var rest := SanitizeEntries(tail, allow, depth).value;
      var safe := SanitizeEntries(entries, allow, depth).value;
      if entries[0].key == key {
        assert Lookup(tail, key).None?;
      }
      if safe != rest {
        assert safe[1..] == rest;
      }
    }
  }

  lemma MovedStep(value: Value, path: seq<Step>)
    requires path != [] && Child(value, path[0]).Some?
    ensures var m := Moved(value, path);
            && m != [] && m[1..] == Moved(Child(value, path[0]).value, path[1..])
            && m[0] == if value.Array? then Index(CountKept(value.items[..path[0].index])) else path[0]
  {}

  /** One step of the original is one step of the copy, to the copy of the same child. */
  lemma ChildKept(value: Value, allow: bool, depth: nat, step: Step)
    requires SanitizeValue(value, allow, depth).Ok? && SanitizeValue(value, allow, depth).value.Some?
    requires WellFormed(value) && !(allow && depth == 0 && IsSensitiveStep(step))
    requires Child(value, step).Some? && !Child(value, step).value.Unsupported? && step != Key(PROTO)
    ensures var safe := SanitizeValue(value, allow, depth).value.value;
            var child := Child(value, step).value;
            var moved := if value.Array? then Index(CountKept(value.items[..step.index])) else step;
            var below := if value.Array? then depth else depth + 1;
            && WellFormed(child)
            && Child(safe, moved).Some?
            && SanitizeValue(child, allow, below) == Ok(Child(safe, moved))
  {
    hide IsSensitive, SanitizeItems, SanitizeEntries, Lookup;
    var child := Child(value, step).value;
    if value.Object? {
      var i :| 0 <= i < |value.entries| && value.entries[i] == Entry(step.key, child);
      EntryKept(value.entries, allow, depth, step.key);
      SanitizeEntriesOk(value.entries, allow, depth, i);
    } else {
      ItemKept(value.items, allow, depth, step.index);
    }
  }

  /** Below the top level, every supported node outside `__proto__` is copied to its moved path. */
  lemma {:induction false} NodeKept(value: Value, allow: bool, depth: nat, path: seq<Step>)
    requires SanitizeValue(value, allow, depth).Ok? && SanitizeValue(value, allow, depth).value.Some?
    requires WellFormed(value) && (depth > 0 || !allow)
    requires At(value, path).Some? && !At(value, path).value.Unsupported? && Reaches(path)
    ensures var copy := At(SanitizeValue(value, allow, depth).value.value, Moved(value, path));
            copy.Some? && IsCopy(At(value, path).value, copy.value)
    decreases |path|
  {
    if path != [] {
      var child := Child(value, path[0]).value;
      OnlyUnsupportedIsLost(child, path[1..]);
      ChildKept(value, allow, depth, path[0]);
      MovedStep(value, path);
      NodeKept(child, allow, if value.Array? then depth else depth + 1, path[1..]);
      OneStepDown(SanitizeValue(value, allow, depth).value.value, Moved(value, path));
    }
  }

  lemma OnlyUnsupportedIsLost(value: Value, path: seq<Step>)
    requires At(value, path).Some? && !At(value, path).value.Unsupported?
    ensures !value.Unsupported?
  {}

  /** One step of the copy is one step of the original, to what its child is the copy of. */
  lemma ChildComesFrom(value: Value, allow: bool, depth: nat, step: Step) returns (from: Step)
    requires SanitizeValue(value, allow, depth).Ok? && SanitizeValue(value, allow, depth).value.Some?
    requires WellFormed(value)
    requires Child(SanitizeValue(value, allow, depth).value.value, step).Some?
    ensures Child(value, from).Some? && WellFormed(Child(value, from).value)
    ensures from != Key(PROTO) && !IsSensitiveStep(from)
    ensures step == if value.Array? then Index(CountKept(value.items[..from.index])) else from
    ensures SanitizeValue(Child(value, from).value, allow, if value.Array? then depth else depth + 1)
         == Ok(Child(SanitizeValue(value, allow, depth).value.value, step))
  {
    hide IsSensitive, SanitizeItems, SanitizeEntries, CountKept;
    if value.Object? {
      EntryKept(value.entries, allow, depth, step.key);
      var child := Lookup(value.entries, step.key).value;
      var i :| 0 <= i < |value.entries| && value.entries[i] == Entry(step.key, child);
      from := step;
    } else {
      var i := ItemComesFrom(value.items, allow, depth, step.index);
      ItemKept(value.items, allow, depth, i);
      from := Index(i);
    }
  }

  /** Every node of the copy is the copy of a node of the original, and not of one below a sensitive key. */
  lemma {:induction false} NodeComesFrom(value: Value, allow: bool, depth: nat, path: seq<Step>)
    returns (from: seq<Step>)
    requires SanitizeValue(value, allow, depth).Ok? && SanitizeValue(value, allow, depth).value.Some?
    requires WellFormed(value)
    requires At(SanitizeValue(value, allow, depth).value.value, path).Some?
    ensures At(value, from).Some? && Moved(value, from) == path && Reaches(from)
    ensures from != [] ==> !IsSensitiveStep(from[0])
    ensures IsCopy(At(value, from).value, At(SanitizeValue(value, allow, depth).value.value, path).value)
    decreases |path|
  {
    hide IsSensitive, CountKept;
    if path == [] {
      from := [];
    } else {
      var safe := SanitizeValue(value, allow, depth).value.value;
      var step := ChildComesFrom(value, allow, depth, path[0]);
      var rest := NodeComesFrom(Child(value, step).value, allow, if value.Array? then depth else depth + 1, path[1..]);
      from := [step] + rest;
      assert from[1..] == rest;
      OneStepDown(value, from);
      OneStepDown(safe, path);
      MovedStep(value, from);
      assert path == [path[0]] + path[1..];
    }
  }

  /** Every supported node outside the dropped subtrees is in the copy, at its moved path. */
  lemma ContextKept(context: seq<Entry>, allow: bool, path: seq<Step>)
    requires SanitizeEntries(context, allow, 0).Ok? && WellFormed(Object(context))
    requires At(Object(context), path).Some? && !At(Object(context), path).value.Unsupported?
    requires Reaches(path) && !IsDropped(path, allow)
    ensures var safe := Object(SanitizeEntries(context, allow, 0).value);
            var copy := At(safe, Moved(Object(context), path));
            copy.Some? && IsCopy(At(Object(context), path).value, copy.value)
  {
    hide IsSensitive, SanitizeItems, WellFormed;
    if path != [] {
      var child := Child(Object(context), path[0]).value;
      OnlyUnsupportedIsLost(child, path[1..]);
      ChildKept(Object(context), allow, 0, path[0]);
      MovedStep(Object(context), path);
      NodeKept(child, allow, 1, path[1..]);
      OneStepDown(Object(SanitizeEntries(context, allow, 0).value), Moved(Object(context), path));
    }
  }

  /** Nothing else is in the copy: each of its nodes is the copy of a node outside the dropped subtrees. */
  lemma ContextComesFrom(context: seq<Entry>, allow: bool, path: seq<Step>)
    requires SanitizeEntries(context, allow, 0).Ok? && WellFormed(Object(context))
    requires At(Object(SanitizeEntries(context, allow, 0).value), path).Some?
    ensures exists from :: At(Object(context), from).Some? && Moved(Object(context), from) == path
              && Reaches(from) && !IsDropped(from, allow)
              && IsCopy(At(Object(context), from).value,
                        At(Object(SanitizeEntries(context, allow, 0).value), path).value)
  {
    hide IsSensitive;
    var from := NodeComesFrom(Object(context), allow, 0, path);
    assert At(Object(context), from).Some? && Moved(Object(context), from) == path;
  }

  lemma {:induction false} MovedKeepsKeys(value: Value, path: seq<Step>)
    ensures Reaches(Moved(value, path)) <==> Reaches(path)
    decreases |path|
  {
    if path != [] && Child(value, path[0]).Some? {
      MovedStep(value, path);
      MovedKeepsKeys(Child(value, path[0]).value, path[1..]);
      ReachesStep(path);
      ReachesStep(Moved(value, path));
    }
  }

  lemma ReachesStep(path: seq<Step>)
    requires path != []
    ensures Reaches(path) <==> path[0] != Key(PROTO) && Reaches(path[1..])
  {
    if path[0] != Key(PROTO) && Reaches(path[1..]) {
      assert forall i :: 0 < i < |path| ==> path[i] == path[1..][i - 1];
    }
    if Reaches(path) {
      assert forall i :: 0 <= i < |path[1..]| ==> path[1..][i] == path[i + 1];
    }
  }

  /** A supported node outside the dropped subtrees is in the copy exactly when its path does not pass through `__proto__`. */
  lemma ContextKeptExactly(context: seq<Entry>, allow: bool, path: seq<Step>)
    requires SanitizeEntries(context, allow, 0).Ok? && WellFormed(Object(context))
    requires At(Object(context), path).Some? && !At(Object(context), path).value.Unsupported?
    requires !IsDropped(path, allow)
    ensures At(Object(SanitizeEntries(context, allow, 0).value), Moved(Object(context), path)).Some? <==> Reaches(path)
  {
    hide SanitizeEntries, IsSensitive, IsCopy, WellFormed, Moved, At;
    var moved := Moved(Object(context), path);
    if Reaches(path) {
      ContextKept(context, allow, path);
    } else if At(Object(SanitizeEntries(context, allow, 0).value), moved).Some? {
      ContextComesFrom(context, allow, moved);
      var from :| At(Object(context), from).Some? && Moved(Object(context), from) == moved && Reaches(from);
      MovedKeepsKeys(Object(context), from);
      MovedKeepsKeys(Object(context), path);
    }
  }

  /** The exception is real: of a parsed context with an own `__proto__` entry, nothing below that entry is in the copy. */
  lemma ProtoIsLost()
    ensures var context := [Entry("job", Null), Entry("__proto__", Object([Entry("step", Null)]))];
            && WellFormed(Object(context))
            && At(Object(context), [Key("__proto__"), Key("step")]) == Some(Null)
            && SanitizeEntries(context, true, 0) == Ok([Entry("job", Null)])
  {
    hide WellFormed, At, SanitizeEntries;
    ProtoIsThere();
    ProtoIsNotCopied();
  }

  lemma ProtoIsThere()
    ensures var context := [Entry("job", Null), Entry("__proto__", Object([Entry("step", Null)]))];
            && WellFormed(Object(context))
            && At(Object(context), [Key("__proto__"), Key("step")]) == Some(Null)
  {
    hide IsSensitive;
    var inner := [Entry("step", Null)];
    var rest := [Entry("__proto__", Object(inner))];
    var context := [Entry("job", Null), Entry("__proto__", Object(inner))];
    assert context[1..] == rest && |"job"| != |"__proto__"|;
    assert WellFormed(Object(inner));
    assert [Key("__proto__"), Key("step")][1..] == [Key("step")] && [Key("step")][1..] == [];
    assert Lookup(rest, "__proto__") == Some(Object(inner));
    assert At(Object(inner), [Key("step")]) == Some(Null);
  }

  lemma ProtoIsNotCopied()
    ensures var context := [Entry("job", Null), Entry("__proto__", Object([Entry("step", Null)]))];
            SanitizeEntries(context, true, 0) == Ok([Entry("job", Null)])
  {
    hide IsSensitive, SanitizeValue, SanitizeEntries, SanitizeItems;
    NotSensitive("job");
    NotSensitive("__proto__");
    NotSensitive("step");
    var inner := [Entry("step", Null)];
    var rest := [Entry("__proto__", Object(inner))];
    CleanIsFixed(Object(inner), true, 1);
    CleanIsFixed(Null, true, 1);
    CleanEntriesAreFixed([], true, 0);
    assert rest + [] == rest;
    Unfold("__proto__", Object(inner), []);
    Unfold("job", Null, rest);
    assert |"job"| != |"__proto__"| && [] + [Entry("job", Null)] == [Entry("job", Null)];
    assert [Entry("job", Null)] + rest == [Entry("job", Null), Entry("__proto__", Object([Entry("step", Null)]))];
  }

  lemma Unfold(key: string, value: Value, rest: seq<Entry>)
    requires !IsSensitive(key) && SanitizeValue(value, true, 1).Ok? && SanitizeEntries(rest, true, 0) == Ok([])
    ensures SanitizeEntries([Entry(key, value)] + rest, true, 0)
         == Ok(Assign([], key, SanitizeValue(value, true, 1).value))
  {
    var entries := [Entry(key, value)] + rest;
    assert entries[1..] == rest;
    PrependTwice(Assign([], key, SanitizeValue(value, true, 1).value), [], Ok([]));
  }

  lemma NotSensitive(key: string)
    requires key in {"job", PROTO, "step"}
    ensures !IsSensitive(key)
  {
    forall w, i | 0 <= w < |SENSITIVE_WORDS| && 0 <= i < |key|
      ensures !WordAt(key, SENSITIVE_WORDS[w], i)
    {
      FirstLetters(key, w, i);
    }
  }

  lemma FirstLetters(key: string, w: nat, i: nat)
    requires w < |SENSITIVE_WORDS|
    ensures var word := SENSITIVE_WORDS[w];
            WordAt(key, word, i) ==>
              && i + 3 <= |key|
              && Lower(key[i]) == word[0] && Lower(key[i + 1]) == word[1] && Lower(key[i + 2]) == word[2]
  {
    var word := SENSITIVE_WORDS[w];
    if WordAt(key, word, i) {
      assert Lower(key[i + 0]) == word[0] && Lower(key[i + 1]) == word[1] && Lower(key[i + 2]) == word[2];
    }
  }

  // ----- The copy is clean

  /** Plain data that the sanitizer has nothing to do on. */
  ghost predicate IsClean(value: Value)
    decreases value
  {
    match value
    case Date(_) | Unsupported => false
    case Array(items) => forall i :: 0 <= i < |items| ==> IsClean(items[i])
    case Object(entries) => forall i :: 0 <= i < |entries| ==>
        IsClean(entries[i].value) && !IsSensitive(entries[i].key) && entries[i].key != PROTO
    case _ => true
  }

  lemma {:induction false} CopyIsClean(value: Value, allow: bool, depth: nat)
    requires SanitizeValue(value, allow, depth).Ok? && SanitizeValue(value, allow, depth).value.Some?
    ensures IsClean(SanitizeValue(value, allow, depth).value.value)
    decreases value, 1
  {
    match value
    case Array(items) => ItemsAreClean(items, allow, depth);
    case Object(entries) => EntriesAreClean(entries, allow, depth);
    case _ =>
  }

  lemma {:induction false} ItemsAreClean(items: seq<Value>, allow: bool, depth: nat)
    requires SanitizeItems(items, allow, depth).Ok?
    ensures IsClean(Array(SanitizeItems(items, allow, depth).value))
    decreases items, 0
  {
    if items != [] {
      ItemsAreClean(items[1..], allow, depth);
      if !items[0].Unsupported? { CopyIsClean(items[0], allow, depth); }
      var rest := SanitizeItems(items[1..], allow, depth).value;
      assert IsClean(Array(rest));
    }
  }

  lemma {:induction false} EntriesAreClean(entries: seq<Entry>, allow: bool, depth: nat)
    requires SanitizeEntries(entries, allow, depth).Ok?
    ensures IsClean(Object(SanitizeEntries(entries, allow, depth).value))
    decreases entries, 0
  {
    if entries != [] {
      EntriesAreClean(entries[1..], allow, depth);
      var rest := SanitizeEntries(entries[1..], allow, depth).value;
      assert IsClean(Object(rest));
      if !IsSensitive(entries[0].key) && !entries[0].value.Unsupported? {
        CopyIsClean(entries[0].value, allow, depth + 1);
      }
    }
  }

  lemma {:induction false} CleanIsFixed(value: Value, allow: bool, depth: nat)
    requires IsClean(value)
    ensures SanitizeValue(value, allow, depth) == Ok(Some(value))
    decreases value, 1
  {
    match value
    case Array(items) => CleanItemsAreFixed(items, allow, depth);
    case Object(entries) => CleanEntriesAreFixed(entries, allow, depth);
    case _ =>
  }

  lemma {:induction false} CleanItemsAreFixed(items: seq<Value>, allow: bool, depth: nat)
    requires forall i :: 0 <= i < |items| ==> IsClean(items[i])
    ensures SanitizeItems(items, allow, depth) == Ok(items)
    decreases items, 0
  {
    if items != [] {
      CleanIsFixed(items[0], allow, depth);
      CleanItemsAreFixed(items[1..], allow, depth);
      assert [items[0]] + items[1..] == items;
    }
  }

  lemma {:induction false} CleanEntriesAreFixed(entries: seq<Entry>, allow: bool, depth: nat)
    requires forall i :: 0 <= i < |entries| ==>
        IsClean(entries[i].value) && !IsSensitive(entries[i].key) && entries[i].key != PROTO
    ensures SanitizeEntries(entries, allow, depth) == Ok(entries)
    decreases entries, 0
  {
    if entries != [] {
      CleanIsFixed(entries[0].value, allow, depth + 1);
      CleanEntriesAreFixed(entries[1..], allow, depth);
      assert Assign([], entries[0].key, Some(entries[0].value)) == [entries[0]];
      assert [entries[0]] + entries[1..] == entries;
    }
  }

  /** No sensitive key is left at any depth, and sanitizing again, with any option, changes nothing. */
  lemma SanitizedIsSafe(context: seq<Entry>, allow: bool, again: bool)
    requires SanitizeEntries(context, allow, 0).Ok?
    ensures var safe := SanitizeEntries(context, allow, 0).value;
            && SanitizeEntries(safe, again, 0) == Ok(safe)
            && forall path :: !Offends(Object(safe), path)
  {
    var safe := SanitizeEntries(context, allow, 0).value;
    EntriesAreClean(context, allow, 0);
    CleanEntriesAreFixed(safe, again, 0);
    CleanEntriesAreFixed(safe, false, 0);
    forall path ensures !Offends(Object(safe), path) {
      OkHasNoOffence(Object(safe), false, 0, path);
    }
  }
}
