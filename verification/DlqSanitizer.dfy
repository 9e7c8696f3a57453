/** The payload sanitiser of the dead-letter queue.

    The key test is a parameter of the sanitiser's specification: what is proved holds for any
    classification of keys, in particular for `IsSensitiveKey`.
 */
module DlqSanitizer {
  import opened Options

  const MAX_STRING := 4096
  const MAX_NESTED := 50
  const SUFFIX := "...[truncated]"
  const REDACTED := Str("[REDACTED]")

  /** A dictionary key, with the text it is shown as. */
  datatype Key = TextKey(text: string) | OtherKey(text: string)

  /** A payload.  `Opaque` stands for every value that is neither a dict, a list nor a string. */
  datatype Value = Dict(items: Items) | List(elems: Values) | Str(text: string) | Opaque(id: int)

  /** Dictionary entries in insertion order. */
  datatype Items = NoItems | Item(key: Key, value: Value, rest: Items)

  datatype Values = NoValues | Values(head: Value, tail: Values)

  // ----- the key test

  const TOKEN_KEYS: set<string> := {
    "access_token", "accesstoken", "refresh_token", "refreshtoken", "token", "authorization", "auth", "bearer" }

  const SECRET_KEYS: set<string> := {
    "password", "passwd", "secret", "api_key", "apikey", "private_key", "client_secret", "clientsecret" }

  const CONTENT_KEYS: set<string> := {"raw_code", "code", "content", "file_content"}

  const SENSITIVE_KEYS := TOKEN_KEYS + SECRET_KEYS + CONTENT_KEYS

  const KELVIN: char := '\U{212A}'

  const SENSITIVE_MARKERS: set<string> := {"token", "secret", "password", "private_key", "api_key", "apikey"}

  /** Lower case, with the dash as an underscore.  Besides the ASCII letters only the Kelvin sign has a
      lower case that is an ASCII letter. */
  function LowerChar(c: char): char
  {
    if 'A' <= c <= 'Z' then c - 'A' + 'a'
    else if c == KELVIN then 'k'
    else if c == '-' then '_'
    else c
  }

  function Normalised(key: string): string
  {
    seq(|key|, i requires 0 <= i < |key| => LowerChar(key[i]))
  }

  predicate OccursAt(s: string, marker: string, i: int)
  {
    0 <= i <= |s| - |marker| && s[i..i + |marker|] == marker
  }

  predicate Contains(s: string, marker: string)
  {
    exists i :: 0 <= i <= |s| && OccursAt(s, marker, i)
  }

  predicate IsSensitiveKey(key: string)
  {
    Normalised(key) in SENSITIVE_KEYS || exists m :: m in SENSITIVE_MARKERS && Contains(Normalised(key), m)
  }

  /** Two spellings of one character: upper and lower case, or dash and underscore. */
  predicate SameLetter(c: char, d: char)
  {
    || c == d
    || ('a' <= c <= 'z' && 'A' <= d <= 'Z' && c - 'a' == d - 'A')
    || ('a' <= d <= 'z' && 'A' <= c <= 'Z' && d - 'a' == c - 'A')
    || (c in {'k', 'K', KELVIN} && d in {'k', 'K', KELVIN})
    || (c in {'-', '_'} && d in {'-', '_'})
  }

  /** The same text up to case and the choice between dash and underscore. */
  predicate SpelledLike(key: string, other: string)
  {
    |key| == |other| && forall i :: 0 <= i < |key| ==> SameLetter(key[i], other[i])
  }

  lemma SpelledLikeIff(key: string, other: string)
    ensures SpelledLike(key, other) <==> Normalised(key) == Normalised(other)
  {
    if Normalised(key) == Normalised(other) {
      assert |key| == |Normalised(key)| == |other|;
      forall i | 0 <= i < |key| ensures SameLetter(key[i], other[i]) {
        assert Normalised(key)[i] == LowerChar(key[i]) && Normalised(other)[i] == LowerChar(other[i]);
      }
    }
  }

  /** Case and the choice between dash and underscore do not matter. */
  lemma KeyTestNormalises(key: string, other: string)
    requires SpelledLike(key, other)
    ensures IsSensitiveKey(key) <==> IsSensitiveKey(other)
  {
    SpelledLikeIff(key, other);
  }

  /** Neither capitals, nor the Kelvin sign, nor a dash. */
  predicate Plain(s: string)
  {
    forall i :: 0 <= i < |s| ==> LowerChar(s[i]) == s[i]
  }

  lemma ListedArePlain(name: string)
    requires name in SENSITIVE_KEYS
    ensures Plain(name)
  {
    if name in TOKEN_KEYS {
      TokenKeysArePlain(name);
    } else if name in SECRET_KEYS {
      SecretKeysArePlain(name);
    }
  }

  lemma TokenKeysArePlain(name: string)
    requires name in TOKEN_KEYS
    ensures Plain(name)
  {
  }

  lemma SecretKeysArePlain(name: string)
    requires name in SECRET_KEYS
    ensures Plain(name)
  {
  }

  lemma MarkersAreListed(m: string)
    requires m in SENSITIVE_MARKERS
    ensures m in SENSITIVE_KEYS
  {
  }

  lemma PlainIsNormalised(s: string)
    requires Plain(s)
    ensures Normalised(s) == s
  {
  }

  /** Some stretch of the key spells the marker. */
  predicate Spells(key: string, m: string)
  {
    exists i :: 0 <= i <= |key| && SpellsAt(key, m, i)
  }

  predicate SpellsAt(key: string, m: string, i: int)
  {
    0 <= i <= |key| - |m| && SpelledLike(key[i..i + |m|], m)
  }

  lemma SpellsIff(key: string, m: string)
    requires Plain(m)
    ensures Spells(key, m) <==> Contains(Normalised(key), m)
  {
    PlainIsNormalised(m);
    var n := Normalised(key);
    forall i | 0 <= i <= |key| ensures SpellsAt(key, m, i) <==> OccursAt(n, m, i) {
      if i <= |key| - |m| {
        SpelledLikeIff(key[i..i + |m|], m);
        assert Normalised(key[i..i + |m|]) == n[i..i + |m|];
      }
    }
  }

  /** A key is sensitive exactly when it spells a listed name or some stretch of it spells a marker. */
  lemma SensitiveIff(key: string)
    ensures IsSensitiveKey(key) <==>
            (exists name :: name in SENSITIVE_KEYS && SpelledLike(key, name)) ||
            (exists m :: m in SENSITIVE_MARKERS && Spells(key, m))
  {
    forall name | name in SENSITIVE_KEYS ensures SpelledLike(key, name) <==> Normalised(key) == name {
      ListedArePlain(name);
      PlainIsNormalised(name);
      SpelledLikeIff(key, name);
    }
    forall m | m in SENSITIVE_MARKERS ensures Spells(key, m) <==> Contains(Normalised(key), m) {
      MarkersAreListed(m);
      ListedArePlain(m);
      SpellsIff(key, m);
    }
    if Normalised(key) in SENSITIVE_KEYS {
      assert SpelledLike(key, Normalised(key));
    }
  }

  /** A key in which some spelling of a marker occurs is sensitive whatever is put around it. */
  lemma MarkerSurvives(before: string, spelling: string, after: string, m: string)
    requires m in SENSITIVE_MARKERS && SpelledLike(spelling, m)
    ensures IsSensitiveKey(before + spelling + after)
  {
    var key := before + spelling + after;
    assert key[|before|..|before| + |m|] == spelling;
    assert SpellsAt(key, m, |before|);
    SensitiveIff(key);
  }

  // ----- the specification

  function Truncated(s: string): string
  {
    if |s| > MAX_STRING then s[..MAX_STRING] + SUFFIX else s
  }

  /** Dictionary assignment: an existing key keeps its place. */
  function Put(items: Items, key: string, v: Value): Items
  {
    match items
    case NoItems => Item(TextKey(key), v, NoItems)
    case Item(k, w, rest) => if k == TextKey(key) then Item(k, v, rest) else Item(k, w, Put(rest, key, v))
  }

  function Sanitized(sens: string -> bool, v: Value): Value
  {
    match v
    case Dict(items) => Dict(SanitizedItems(sens, items, MAX_NESTED, NoItems))
    case List(elems) => List(SanitizedList(sens, elems, MAX_NESTED))
    case Str(text) => Str(Truncated(text))
    case Opaque(_) => v
  }

  /** The first `n` entries, put into `out` one after the other. */
  function SanitizedItems(sens: string -> bool, items: Items, n: nat, out: Items): Items
    decreases items
  {
    if n == 0 || items.NoItems? then out
    else
      var key := items.key.text;
      var v := if sens(key) then REDACTED else Sanitized(sens, items.value);
      SanitizedItems(sens, items.rest, n - 1, Put(out, key, v))
  }

  function SanitizedList(sens: string -> bool, elems: Values, n: nat): Values
    decreases elems
  {
    if n == 0 || elems.NoValues? then NoValues
    else Values(Sanitized(sens, elems.head), SanitizedList(sens, elems.tail, n - 1))
  }

  // ----- what a clean payload is

  function Count(items: Items): nat
  {
    if items.NoItems? then 0 else 1 + Count(items.rest)
  }

  function Length(elems: Values): nat
  {
    if elems.NoValues? then 0 else 1 + Length(elems.tail)
  }

  predicate HasKey(items: Items, k: Key)
  {
    items.Item? && (items.key == k || HasKey(items.rest, k))
  }

  /** Bounded strings, dicts and lists at every depth, text keys only, no key twice, and nothing but
      the redaction mark under a sensitive key. */
  predicate Clean(sens: string -> bool, v: Value)
  {
    match v
    case Dict(items) => Count(items) <= MAX_NESTED && CleanItems(sens, items)
    case List(elems) => Length(elems) <= MAX_NESTED && CleanList(sens, elems)
    case Str(text) => |text| <= MAX_STRING || (|text| == MAX_STRING + |SUFFIX| && text[MAX_STRING..] == SUFFIX)
    case Opaque(_) => true
  }

  predicate CleanItems(sens: string -> bool, items: Items)
  {
    items.Item? ==>
      && items.key.TextKey? && !HasKey(items.rest, items.key)
      && (if sens(items.key.text) then items.value == REDACTED else Clean(sens, items.value))
      && CleanItems(sens, items.rest)
  }

  predicate CleanList(sens: string -> bool, elems: Values)
  {
    elems.Values? ==> Clean(sens, elems.head) && CleanList(sens, elems.tail)
  }

  // ----- the result is clean

  lemma {:induction false} PutHas(items: Items, key: string, v: Value, k: Key)
    ensures HasKey(Put(items, key, v), k) <==> HasKey(items, k) || k == TextKey(key)
  {
    if items.Item? {
      PutHas(items.rest, key, v, k);
    }
  }

  lemma {:induction false} PutClean(sens: string -> bool, items: Items, key: string, v: Value)
    requires CleanItems(sens, items)
    requires if sens(key) then v == REDACTED else Clean(sens, v)
    ensures CleanItems(sens, Put(items, key, v)) && Count(Put(items, key, v)) <= Count(items) + 1
  {
    if items.Item? && items.key != TextKey(key) {
      PutClean(sens, items.rest, key, v);
      PutHas(items.rest, key, v, items.key);
    }
  }

  /** The sanitised payload is clean. */
  lemma {:induction false} SanitizedIsClean(sens: string -> bool, v: Value)
    ensures Clean(sens, Sanitized(sens, v))
  {
    match v
    case Dict(items) => ItemsClean(sens, items, MAX_NESTED, NoItems);
    case List(elems) => ListClean(sens, elems, MAX_NESTED);
    case Str(_) =>
    case Opaque(_) =>
  }

  lemma {:induction false} ItemsClean(sens: string -> bool, items: Items, n: nat, out: Items)
    requires CleanItems(sens, out)
    ensures CleanItems(sens, SanitizedItems(sens, items, n, out))
    ensures Count(SanitizedItems(sens, items, n, out)) <= Count(out) + n
    decreases items
  {
    if n > 0 && items.Item? {
      var key := items.key.text;
      var v := if sens(key) then REDACTED else Sanitized(sens, items.value);
      if !sens(key) {
        SanitizedIsClean(sens, items.value);
      }
      PutClean(sens, out, key, v);
      ItemsClean(sens, items.rest, n - 1, Put(out, key, v));
    }
  }

  lemma {:induction false} ListClean(sens: string -> bool, elems: Values, n: nat)
    ensures CleanList(sens, SanitizedList(sens, elems, n)) && Length(SanitizedList(sens, elems, n)) <= n
    decreases elems
  {
    if n > 0 && elems.Values? {
      SanitizedIsClean(sens, elems.head);
      ListClean(sens, elems.tail, n - 1);
    }
  }

  // ----- a clean payload is left alone

  function Concat(a: Items, b: Items): Items
  {
    if a.NoItems? then b else Item(a.key, a.value, Concat(a.rest, b))
  }

  ghost predicate Disjoint(a: Items, b: Items)
  {
    forall k :: !(HasKey(a, k) && HasKey(b, k))
  }

  lemma {:induction false} PutNew(out: Items, key: string, v: Value, rest: Items)
    requires !HasKey(out, TextKey(key))
    ensures Concat(Put(out, key, v), rest) == Concat(out, Item(TextKey(key), v, rest))
  {
    if out.Item? {
      PutNew(out.rest, key, v, rest);
    }
  }

  /** Sanitising a clean payload changes nothing. */
  lemma {:induction false} CleanIsFixed(sens: string -> bool, v: Value)
    requires Clean(sens, v)
    ensures Sanitized(sens, v) == v
  {
    match v
    case Dict(items) =>
      ItemsFixed(sens, items, MAX_NESTED, NoItems);
    case List(elems) => ListFixed(sens, elems, MAX_NESTED);
    case Str(text) =>
      if |text| > MAX_STRING {
        assert text == text[..MAX_STRING] + text[MAX_STRING..];
      }
    case Opaque(_) =>
  }

  lemma {:induction false} ItemsFixed(sens: string -> bool, items: Items, n: nat, out: Items)
    requires CleanItems(sens, items) && Count(items) <= n && Disjoint(out, items)
    ensures SanitizedItems(sens, items, n, out) == Concat(out, items)
    decreases items
  {
    if items.NoItems? {
      ConcatNone(out);
    } else {
      var key := items.key.text;
      if !sens(key) {
        CleanIsFixed(sens, items.value);
      }
      assert HasKey(items, items.key) && !HasKey(out, items.key);
      var out' := Put(out, key, items.value);
      forall k ensures !(HasKey(out', k) && HasKey(items.rest, k)) {
        PutHas(out, key, items.value, k);
        assert HasKey(items.rest, k) ==> HasKey(items, k);
      }
      ItemsFixed(sens, items.rest, n - 1, out');
      PutNew(out, key, items.value, items.rest);
    }
  }

  lemma {:induction false} ConcatNone(a: Items)
    ensures Concat(a, NoItems) == a
  {
    if a.Item? {
      ConcatNone(a.rest);
    }
  }

  lemma {:induction false} ListFixed(sens: string -> bool, elems: Values, n: nat)
    requires CleanList(sens, elems) && Length(elems) <= n
    ensures SanitizedList(sens, elems, n) == elems
    decreases elems
  {
    if elems.Values? {
      CleanIsFixed(sens, elems.head);
      ListFixed(sens, elems.tail, n - 1);
    }
  }

  /** The clean payloads are exactly the ones the sanitiser leaves alone. */
  lemma FixedIffClean(sens: string -> bool, v: Value)
    ensures Sanitized(sens, v) == v <==> Clean(sens, v)
  {
    SanitizedIsClean(sens, v);
    if Clean(sens, v) {
      CleanIsFixed(sens, v);
    }
  }

  lemma Idempotent(sens: string -> bool, v: Value)
    ensures Sanitized(sens, Sanitized(sens, v)) == Sanitized(sens, v)
  {
    SanitizedIsClean(sens, v);
    CleanIsFixed(sens, Sanitized(sens, v));
  }

  // ----- values under sensitive keys do not show

  /** The payloads differ only under sensitive keys or beyond the size limits. */
  predicate Alike(sens: string -> bool, v: Value, w: Value)
  {
    match v
    case Dict(items) => w.Dict? && AlikeItems(sens, items, w.items, MAX_NESTED)
    case List(elems) => w.List? && AlikeList(sens, elems, w.elems, MAX_NESTED)
    case Str(text) => w.Str? && (text == w.text || (|text| > MAX_STRING && |w.text| > MAX_STRING && text[..MAX_STRING] == w.text[..MAX_STRING]))
    case Opaque(_) => v == w
  }

  predicate AlikeItems(sens: string -> bool, a: Items, b: Items, n: nat)
    decreases a
  {
    n > 0 ==>
      && (a.Item? <==> b.Item?)
      && (a.Item? ==>
            && a.key.text == b.key.text
            && (sens(a.key.text) || Alike(sens, a.value, b.value))
            && AlikeItems(sens, a.rest, b.rest, n - 1))
  }

  predicate AlikeList(sens: string -> bool, a: Values, b: Values, n: nat)
    decreases a
  {
    n > 0 ==>
      && (a.Values? <==> b.Values?)
      && (a.Values? ==> Alike(sens, a.head, b.head) && AlikeList(sens, a.tail, b.tail, n - 1))
  }

  /** Payloads that differ only under sensitive keys are sanitised to the same result. */
  lemma {:induction false} SecretsDoNotShow(sens: string -> bool, v: Value, w: Value)
    requires Alike(sens, v, w)
    ensures Sanitized(sens, v) == Sanitized(sens, w)
  {
    match v
    case Dict(items) => ItemsDoNotShow(sens, items, w.items, MAX_NESTED, NoItems);
    case List(elems) => ListDoesNotShow(sens, elems, w.elems, MAX_NESTED);
    case Str(_) =>
    case Opaque(_) =>
  }

  lemma {:induction false} ItemsDoNotShow(sens: string -> bool, a: Items, b: Items, n: nat, out: Items)
    requires AlikeItems(sens, a, b, n)
    ensures SanitizedItems(sens, a, n, out) == SanitizedItems(sens, b, n, out)
    decreases a
  {
    if n > 0 && a.Item? {
      var key := a.key.text;
      if !sens(key) {
        SecretsDoNotShow(sens, a.value, b.value);
      }
      ItemsDoNotShow(sens, a.rest, b.rest, n - 1, Put(out, key, if sens(key) then REDACTED else Sanitized(sens, a.value)));
    }
  }

  lemma {:induction false} ListDoesNotShow(sens: string -> bool, a: Values, b: Values, n: nat)
    requires AlikeList(sens, a, b, n)
    ensures SanitizedList(sens, a, n) == SanitizedList(sens, b, n)
    decreases a
  {
    if n > 0 && a.Values? {
      SecretsDoNotShow(sens, a.head, b.head);
      ListDoesNotShow(sens, a.tail, b.tail, n - 1);
    }
  }

  // ----- what is kept

  /** The value under a key text, `None` when there is none. */
  function ValueAt(items: Items, key: string): Option<Value>
  {
    if items.NoItems? then None
    else if items.key.text == key then Some(items.value)
    else ValueAt(items.rest, key)
  }

  /** The last value given to a key text by the first `n` entries. */
  function LastValueAt(items: Items, n: nat, key: string): Option<Value>
    decreases items
  {
    if n == 0 || items.NoItems? then None
    else
      var later := LastValueAt(items.rest, n - 1, key);
      if later.Some? then later else if items.key.text == key then Some(items.value) else None
  }

  predicate AllText(items: Items)
  {
    items.Item? ==> items.key.TextKey? && AllText(items.rest)
  }

  lemma {:induction false} PutValueAt(items: Items, key: string, v: Value, k: string)
    requires AllText(items)
    ensures AllText(Put(items, key, v))
    ensures ValueAt(Put(items, key, v), k) == if k == key then Some(v) else ValueAt(items, k)
  {
    if items.Item? {
      PutValueAt(items.rest, key, v, k);
    }
  }

  /** Under each key text the result has the redaction mark if the key is sensitive, and otherwise the
      sanitised form of the last value among the first entries; it has no other keys. */
  lemma {:induction false} EntryKept(sens: string -> bool, items: Items, n: nat, out: Items, key: string)
    requires AllText(out)
    ensures var last := LastValueAt(items, n, key);
            ValueAt(SanitizedItems(sens, items, n, out), key) ==
            if last.None? then ValueAt(out, key) else Some(if sens(key) then REDACTED else Sanitized(sens, last.value))
    decreases items
  {
    if n > 0 && items.Item? {
      var k := items.key.text;
      var v := if sens(k) then REDACTED else Sanitized(sens, items.value);
      PutValueAt(out, k, v, key);
      EntryKept(sens, items.rest, n - 1, Put(out, k, v), key);
    }
  }

  function KeyTexts(items: Items): seq<string>
  {
    if items.NoItems? then [] else [items.key.text] + KeyTexts(items.rest)
  }

  /** The key texts of the first `n` entries in the order of their first appearance, after `seen`. */
  function FirstSeen(items: Items, n: nat, seen: seq<string>): seq<string>
    decreases items
  {
    if n == 0 || items.NoItems? then seen
    else FirstSeen(items.rest, n - 1, if items.key.text in seen then seen else seen + [items.key.text])
  }

  lemma {:induction false} PutKeyTexts(items: Items, key: string, v: Value)
    requires AllText(items)
    ensures KeyTexts(Put(items, key, v)) == if key in KeyTexts(items) then KeyTexts(items) else KeyTexts(items) + [key]
  {
    if items.Item? {
      PutKeyTexts(items.rest, key, v);
    }
  }

  lemma {:induction false} KeysInOrder(sens: string -> bool, items: Items, n: nat, out: Items)
    requires AllText(out)
    ensures KeyTexts(SanitizedItems(sens, items, n, out)) == FirstSeen(items, n, KeyTexts(out))
    decreases items
  {
    if n > 0 && items.Item? {
      var key := items.key.text;
      var v := if sens(key) then REDACTED else Sanitized(sens, items.value);
      PutKeyTexts(out, key, v);
      PutValueAt(out, key, v, key);
      KeysInOrder(sens, items.rest, n - 1, Put(out, key, v));
    }
  }

  /** The entries of a sanitised dict, in the order in which their key texts first appear. */
  lemma DictEntries(sens: string -> bool, items: Items, key: string)
    ensures Sanitized(sens, Dict(items)).Dict?
    ensures KeyTexts(Sanitized(sens, Dict(items)).items) == FirstSeen(items, MAX_NESTED, [])
    ensures var last := LastValueAt(items, MAX_NESTED, key);
            ValueAt(Sanitized(sens, Dict(items)).items, key) ==
            if last.None? then None else Some(if sens(key) then REDACTED else Sanitized(sens, last.value))
  {
    EntryKept(sens, items, MAX_NESTED, NoItems, key);
    KeysInOrder(sens, items, MAX_NESTED, NoItems);
  }

  /** At every depth no two entries of a dict have the same key text, which is so unless a key that is
      not text is shown like another one. */
  predicate NoCollisions(v: Value)
  {
    match v
    case Dict(items) => NoCollisionsIn(items)
    case List(elems) => NoCollisionsAmong(elems)
    case Str(_) => true
    case Opaque(_) => true
  }

  predicate NoCollisionsIn(items: Items)
  {
    items.Item? ==> !Shows(items.rest, items.key.text) && NoCollisions(items.value) && NoCollisionsIn(items.rest)
  }

  predicate NoCollisionsAmong(elems: Values)
  {
    elems.Values? ==> NoCollisions(elems.head) && NoCollisionsAmong(elems.tail)
  }

  predicate Shows(items: Items, key: string)
  {
    items.Item? && (items.key.text == key || Shows(items.rest, key))
  }

  /** The sanitised payload differs from the payload only under sensitive keys and beyond the limits:
      nothing else is dropped, changed or moved. */
  lemma {:induction false} SanitizedIsAlike(sens: string -> bool, v: Value)
    requires NoCollisions(v)
    ensures Alike(sens, v, Sanitized(sens, v))
  {
    match v
    case Dict(items) =>
      ItemsAlike(sens, items, MAX_NESTED, NoItems);
      assert Concat(NoItems, SanitizedFresh(sens, items, MAX_NESTED)) == SanitizedFresh(sens, items, MAX_NESTED);
    case List(elems) => ListAlike(sens, elems, MAX_NESTED);
    case Str(_) =>
    case Opaque(_) =>
  }

  /** The entries as they are sanitised one by one, when no key text repeats. */
  function SanitizedFresh(sens: string -> bool, items: Items, n: nat): Items
    decreases items
  {
    if n == 0 || items.NoItems? then NoItems
    else
      var key := items.key.text;
      Item(TextKey(key), if sens(key) then REDACTED else Sanitized(sens, items.value), SanitizedFresh(sens, items.rest, n - 1))
  }

  lemma {:induction false} ItemsAlike(sens: string -> bool, items: Items, n: nat, out: Items)
    requires NoCollisionsIn(items) && forall k :: !(HasKey(out, TextKey(k)) && Shows(items, k))
    ensures SanitizedItems(sens, items, n, out) == Concat(out, SanitizedFresh(sens, items, n))
    ensures AlikeItems(sens, items, SanitizedFresh(sens, items, n), n)
    decreases items
  {
    if n == 0 || items.NoItems? {
      ConcatNone(out);
    } else {
      var key := items.key.text;
      var v := if sens(key) then REDACTED else Sanitized(sens, items.value);
      if !sens(key) {
        SanitizedIsAlike(sens, items.value);
      }
      assert Shows(items, key);
      forall k ensures !(HasKey(Put(out, key, v), TextKey(k)) && Shows(items.rest, k)) {
        PutHas(out, key, v, TextKey(k));
        assert Shows(items.rest, k) ==> Shows(items, k);
      }
      ItemsAlike(sens, items.rest, n - 1, Put(out, key, v));
      PutNew(out, key, v, SanitizedFresh(sens, items.rest, n - 1));
    }
  }

  lemma {:induction false} ListAlike(sens: string -> bool, elems: Values, n: nat)
    requires NoCollisionsAmong(elems)
    ensures AlikeList(sens, elems, SanitizedList(sens, elems, n), n)
    decreases elems
  {
    if n > 0 && elems.Values? {
      SanitizedIsAlike(sens, elems.head);
      ListAlike(sens, elems.tail, n - 1);
    }
  }

  // ----- the program

  /** The sanitiser as it runs: recursion over the payload, filling a fresh dict or list in a loop. */
  method SanitizeKwargs(v: Value) returns (r: Value)
    ensures r == Sanitized(IsSensitiveKey, v)
    decreases v
  {
    match v {
      case Dict(items) =>
        var out, rest, n := NoItems, items, MAX_NESTED;
        while n > 0 && rest.Item?
          invariant 0 <= n && (rest == items || rest < items)
          invariant SanitizedItems(IsSensitiveKey, rest, n, out) == SanitizedItems(IsSensitiveKey, items, MAX_NESTED, NoItems)
          decreases rest
        {
          var key := rest.key.text;
          if IsSensitiveKey(key) {
            out := Put(out, key, REDACTED);
          } else {
            var clean := SanitizeKwargs(rest.value);
            out := Put(out, key, clean);
          }
          rest, n := rest.rest, n - 1;
        }
        r := Dict(out);
      case List(elems) =>
        var kept := SanitizeList(elems, MAX_NESTED);
        r := List(kept);
      case Str(text) =>
        r := Str(Truncated(text));
      case Opaque(_) =>
        r := v;
    }
  }

  method SanitizeList(elems: Values, n: nat) returns (r: Values)
    ensures r == SanitizedList(IsSensitiveKey, elems, n)
    decreases elems
  {
    if n == 0 || elems.NoValues? {
      r := NoValues;
    } else {
      var head := SanitizeKwargs(elems.head);
      var tail := SanitizeList(elems.tail, n - 1);
      r := Values(head, tail);
    }
  }
}
