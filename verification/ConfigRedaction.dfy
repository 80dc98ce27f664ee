/** Redacting the secret-bearing params of a config tree, JSON documents nested inside strings included
    (src/api/config_redaction.js). The runtime's JSON parser and printer and its trim are parameters. */
module ConfigRedaction {
  import opened Facts
  import opened JsValues
  import opened JsonText
  import opened Pubkeys

  const REDACTED := "[redacted]"
  const TRUNCATED := "[truncated]"
  const MAX_DEPTH := 8

  /** The one name under which an assignment makes no field. */
  const PROTO := "__proto__"

  // ------------------------------------------------------------ param names

  const SECRET_WORDS: seq<string> :=
    ["pass", "secret", "token", "apikey", "api_key", "api-key", "auth", "credential", "wif", "privkey", "priv_key", "priv-key",
     "privatekey", "private_key", "private-key", "mnemonic", "seed", "cookie", "session"]

  predicate Contains(s: string, word: string) { exists i :: 0 <= i <= |s| && word <= s[i..] }

  /** SECRET_PARAM_RE: one of the words anywhere in the name, in any letter case. */
  predicate IsSecretParamName(name: string) {
    exists k :: 0 <= k < |SECRET_WORDS| && Contains(Lower(name), SECRET_WORDS[k])
  }

  predicate SecretWord(w: string) {
    || w == "pass" || w == "secret" || w == "token" || w == "apikey" || w == "api_key" || w == "api-key"
    || w == "auth" || w == "credential" || w == "wif" || w == "privkey" || w == "priv_key" || w == "priv-key"
    || w == "privatekey" || w == "private_key" || w == "private-key" || w == "mnemonic" || w == "seed" || w == "cookie"
    || w == "session"
  }

  /** The word stands at i, in any letter case. */
  predicate WordAt(name: string, i: nat, w: string) { i + |w| <= |name| && Lower(name[i..i + |w|]) == w }

  /** A param is secret exactly when its name holds one of the nineteen words somewhere, in any letter case. */
  lemma SecretNamesExactly(name: string)
    ensures IsSecretParamName(name) <==> exists i, w :: SecretWord(w) && WordAt(name, i, w)
  {
    if k :| 0 <= k < |SECRET_WORDS| && Contains(Lower(name), SECRET_WORDS[k]) {
      var i := FoundAt(name, SECRET_WORDS[k]);
      WordsListed(SECRET_WORDS[k]);
    }
    if i, w :| SecretWord(w) && WordAt(name, i, w) {
      StandsIn(name, i, w);
      WordsListed(w);
      var k :| 0 <= k < |SECRET_WORDS| && SECRET_WORDS[k] == w;
    }
  }

  lemma WordsListed(w: string)
    ensures w in SECRET_WORDS <==> SecretWord(w)
  {
  }

  lemma FoundAt(name: string, w: string) returns (i: nat)
    requires Contains(Lower(name), w)
    ensures WordAt(name, i, w)
  {
    i :| 0 <= i <= |Lower(name)| && w <= Lower(name)[i..];
    assert Lower(name[i..i + |w|]) == Lower(name)[i..][..|w|];
  }

  lemma StandsIn(name: string, i: nat, w: string)
    requires WordAt(name, i, w)
    ensures Contains(Lower(name), w)
  {
    assert Lower(name)[i..][..|w|] == Lower(name[i..i + |w|]);
    assert w <= Lower(name)[i..];
  }

  // ------------------------------------------------------------ JSON runtime

  /** isNumeral names the texts a finite number prints as, isKeyOrder the key sequences an object can list. */
  datatype Runtime = Runtime(parse: string -> Option<Json>, stringify: Json -> string, trim: string -> string,
                             isNumeral: string -> bool, isKeyOrder: seq<string> -> bool)

  function KeysOf(fields: seq<(string, Json)>): seq<string> {
    seq(|fields|, i requires 0 <= i < |fields| => fields[i].0)
  }

  /** A value the runtime can hold. */
  predicate Plain(z: Runtime, v: Json) {
    match v
    case JNum(text) => z.isNumeral(text)
    case JArr(items) => forall i :: 0 <= i < |items| ==> Plain(z, items[i])
    case JObj(fields) => z.isKeyOrder(KeysOf(fields)) && forall i :: 0 <= i < |fields| ==> Plain(z, fields[i].1)
    case _ => true
  }

  predicate IsNode(v: Json) { v.JArr? || v.JObj? }

  /** The longest string held as a value anywhere in the tree. */
  function LongestString(v: Json): nat {
    match v
    case JStr(s) => |s|
    case JArr(items) => LongestOf(items, |items|, v)
    case JObj(fields) => LongestField(fields, |fields|, v)
    case _ => 0
  }

  function LongestOf(items: seq<Json>, k: nat, ghost parent: Json): nat
    requires parent.JArr? && parent.items == items && k <= |items|
    decreases parent, k
  {
    if k == 0 then 0 else Max(LongestOf(items, k - 1, parent), LongestString(items[k - 1]))
  }

  function LongestField(fields: seq<(string, Json)>, k: nat, ghost parent: Json): nat
    requires parent.JObj? && parent.fields == fields && k <= |fields|
    decreases parent, k
  {
    if k == 0 then 0 else Max(LongestField(fields, k - 1, parent), LongestString(fields[k - 1].1))
  }

  lemma {:induction false} ItemNotLonger(v: Json, i: nat, k: nat)
    requires v.JArr? && i < k <= |v.items|
    ensures LongestString(v.items[i]) <= LongestOf(v.items, k, v)
    decreases k
  {
    if i < k - 1 { ItemNotLonger(v, i, k - 1); }
  }

  lemma {:induction false} FieldNotLonger(v: Json, i: nat, k: nat)
    requires v.JObj? && i < k <= |v.fields|
    ensures LongestString(v.fields[i].1) <= LongestField(v.fields, k, v)
    decreases k
  {
    if i < k - 1 { FieldNotLonger(v, i, k - 1); }
  }

  lemma ItemFits(v: Json, i: nat)
    requires v.JArr? && i < |v.items|
    ensures LongestString(v.items[i]) <= LongestString(v)
  {
    ItemNotLonger(v, i, |v.items|);
  }

  lemma FieldFits(v: Json, i: nat)
    requires v.JObj? && i < |v.fields|
    ensures LongestString(v.fields[i].1) <= LongestString(v)
  {
    FieldNotLonger(v, i, |v.fields|);
  }

  lemma FieldIn(v: Json, f: (string, Json))
    requires v.JObj? && f in v.fields
    ensures LongestString(f.1) <= LongestString(v) && f.1 < v
  {
    var i :| 0 <= i < |v.fields| && v.fields[i] == f;
    FieldFits(v, i);
  }

  /** The fields an object keeps when its entries are assigned to a new one. */
  function Assignable(fields: seq<(string, Json)>): (r: seq<(string, Json)>)
    ensures forall f :: f in r <==> f in fields && f.0 != PROTO
  {
    if fields == [] then []
    else
      var last := fields[|fields| - 1];
      assert fields == fields[..|fields| - 1] + [last];
      Assignable(fields[..|fields| - 1]) + if last.0 == PROTO then [] else [last]
  }

  lemma {:induction false} AssignablePrefix(fields: seq<(string, Json)>, i: nat)
    requires i <= |fields|
    ensures Assignable(fields[..i]) <= Assignable(fields)
  {
    if i < |fields| {
      AssignablePrefix(fields[..|fields| - 1], i);
      assert fields[..|fields| - 1][..i] == fields[..i];
    } else {
      assert fields[..i] == fields;
    }
  }

  /** The i-th field is kept where its predecessors leave off, or not at all. */
  lemma AssignableStep(fields: seq<(string, Json)>, i: nat)
    requires i < |fields|
    ensures |Assignable(fields[..i + 1])| == |Assignable(fields[..i])| + (if fields[i].0 == PROTO then 0 else 1)
    ensures fields[i].0 != PROTO ==>
              |Assignable(fields[..i])| < |Assignable(fields)| && Assignable(fields)[|Assignable(fields[..i])|] == fields[i]
  {
    assert fields[..i + 1][..i] == fields[..i];
    AssignablePrefix(fields, i + 1);
  }

  lemma {:induction false} AllAssignable(fields: seq<(string, Json)>)
    requires forall i :: 0 <= i < |fields| ==> fields[i].0 != PROTO
    ensures Assignable(fields) == fields
  {
    if fields != [] {
      var front, last := fields[..|fields| - 1], fields[|fields| - 1];
      forall i | 0 <= i < |front| ensures front[i].0 != PROTO { assert front[i] == fields[i]; }
      AllAssignable(front);
      assert Assignable(fields) == front + [last];
    }
  }

  predicate Opens(text: string) { text != "" && (text[0] == '{' || text[0] == '[') }

  /** Objects print from a brace on, arrays from a bracket on. */
  predicate BeginsAs(v: Json, text: string) { text != "" && text[0] == if v.JObj? then '{' else '[' }

  /** Parsing inverts printing on the runtime's objects and arrays, yields such values, and every string value of a document is
      shorter than the document; trimming never lengthens; the truncation sentinel is no JSON; dropping a key leaves the
      order of the others. */
  ghost predicate Lawful(z: Runtime) {
    && (forall v {:trigger z.stringify(v)} :: IsNode(v) && Plain(z, v) ==> BeginsAs(v, z.trim(z.stringify(v))) && z.parse(z.trim(z.stringify(v))) == Some(v))
    && (forall t {:trigger z.parse(t)} :: z.parse(t).Some? && IsNode(z.parse(t).value) ==> Plain(z, z.parse(t).value) && LongestString(z.parse(t).value) < |t|)
    && (forall t {:trigger z.trim(t)} :: |z.trim(t)| <= |t|)
    && z.parse(z.trim(TRUNCATED)) == None
    && (forall fs {:trigger Assignable(fs)} :: z.isKeyOrder(KeysOf(fs)) ==> z.isKeyOrder(KeysOf(Assignable(fs))))
  }

  /** The document a string value carries, if it carries one. */
  function Embedded(z: Runtime, value: string): Option<Json> {
    var trimmed := z.trim(value);
    if !Opens(trimmed) then None
    else
      var parsed := z.parse(trimmed);
      if parsed.Some? && IsNode(parsed.value) then parsed else None
  }

  /** Every string value of an embedded document is shorter than the string that carries it. */
  ghost predicate Shrinks(z: Runtime) {
    forall s {:trigger Carries(z, s)} :: Carries(z, s) ==> LongestString(Embedded(z, s).value) < |s|
  }

  predicate Carries(z: Runtime, value: string) { Embedded(z, value).Some? }

  lemma LawfulShrinks(z: Runtime)
    requires Lawful(z)
    ensures Shrinks(z)
  {
    forall s | Carries(z, s) ensures LongestString(Embedded(z, s).value) < |s| {
      assert |z.trim(s)| <= |s|;
    }
  }

  // -------------------------------------------------------------- redaction

  function RedactString(z: Runtime, value: string): string
    requires Shrinks(z)
    decreases |value|, 0
  {
    if !Carries(z, value) || Count(z, Embedded(z, value).value, 1) == 0 then value
    else z.stringify(Redact(z, Embedded(z, value).value, 1))
  }

  function RedactField(z: Runtime, key: string, value: Json, depth: nat): Json
    requires Shrinks(z)
    decreases LongestString(value), 1, value, 1
  {
    if IsSecretParamName(key) then JStr(REDACTED)
    else if value.JStr? then JStr(RedactString(z, value.s))
    else Redact(z, value, depth)
  }

  function Redact(z: Runtime, node: Json, depth: nat): Json
    requires Shrinks(z)
    decreases LongestString(node), 1, node, 0
  {
    if !IsNode(node) then node
    else if depth > MAX_DEPTH then JStr(TRUNCATED)
    else if node.JArr? then
      JArr(seq(|node.items|, i requires 0 <= i < |node.items| => ItemFits(node, i); Redact(z, node.items[i], depth + 1)))
    else
      var own := Assignable(node.fields);
      JObj(seq(|own|, i requires 0 <= i < |own| =>
        FieldIn(node, own[i]); (own[i].0, RedactField(z, own[i].0, own[i].1, depth + 1))))
  }

  lemma RedactedAt(z: Runtime, node: Json, depth: nat, i: nat)
    requires Shrinks(z) && node.JObj? && depth <= MAX_DEPTH && i < |Assignable(node.fields)|
    ensures Redact(z, node, depth).JObj? && |Redact(z, node, depth).fields| == |Assignable(node.fields)|
    ensures var f := Assignable(node.fields)[i]; Redact(z, node, depth).fields[i] == (f.0, RedactField(z, f.0, f.1, depth + 1))
  {
  }

  /** How many params a pass replaces. */
  function Count(z: Runtime, node: Json, depth: nat): nat
    requires Shrinks(z)
    decreases LongestString(node), 1, node, 0
  {
    if depth > MAX_DEPTH then 0
    else if node.JArr? then CountItems(z, node, depth, |node.items|)
    else if node.JObj? then CountFields(z, node, depth, |node.fields|)
    else 0
  }

  function CountField(z: Runtime, key: string, value: Json, depth: nat): nat
    requires Shrinks(z)
    decreases LongestString(value), 1, value, 1
  {
    if IsSecretParamName(key) then 1
    else if value.JStr? then CountString(z, value.s)
    else Count(z, value, depth)
  }

  function CountString(z: Runtime, value: string): nat
    requires Shrinks(z)
    decreases |value|, 0
  {
    if !Carries(z, value) then 0 else Count(z, Embedded(z, value).value, 1)
  }

  /** Over the first k items. */
  function CountItems(z: Runtime, node: Json, depth: nat, k: nat): nat
    requires Shrinks(z) && node.JArr? && k <= |node.items|
    decreases LongestString(node), 1, node, 0, k
  {
    if k == 0 then 0
    else ItemFits(node, k - 1);
         CountItems(z, node, depth, k - 1) + Count(z, node.items[k - 1], depth + 1)
  }

  /** Over the first k fields. */
  function CountFields(z: Runtime, node: Json, depth: nat, k: nat): nat
    requires Shrinks(z) && node.JObj? && k <= |node.fields|
    decreases LongestString(node), 1, node, 0, k
  {
    if k == 0 then 0
    else FieldFits(node, k - 1);
         CountFields(z, node, depth, k - 1) + CountField(z, node.fields[k - 1].0, node.fields[k - 1].1, depth + 1)
  }

  // ------------------------------------------------------------ the walk

  class Counter {
    var n: nat
    constructor ()
      ensures n == 0
    {
      n := 0;
    }
  }

  method RedactStringValue(z: Runtime, value: string, counter: Counter) returns (r: string)
    requires Shrinks(z)
    modifies counter
    ensures r == RedactString(z, value) && counter.n == old(counter.n) + CountString(z, value)
    decreases |value|, 0
  {
    if !Carries(z, value) { return value; }
    var parsed := Embedded(z, value).value;
    var before := counter.n;
    var redacted := RedactNode(z, parsed, 1, counter);
    if counter.n == before { return value; }
    r := z.stringify(redacted);
  }

  method RedactParam(z: Runtime, key: string, value: Json, depth: nat, counter: Counter) returns (r: Json)
    requires Shrinks(z)
    modifies counter
    ensures r == RedactField(z, key, value, depth) && counter.n == old(counter.n) + CountField(z, key, value, depth)
    decreases LongestString(value), 1, value, 1
  {
    if IsSecretParamName(key) {
      counter.n := counter.n + 1;
      return JStr(REDACTED);
    }
    if value.JStr? {
      var s := RedactStringValue(z, value.s, counter);
      return JStr(s);
    }
    r := RedactNode(z, value, depth, counter);
  }

  method RedactNode(z: Runtime, node: Json, depth: nat, counter: Counter) returns (r: Json)
    requires Shrinks(z)
    modifies counter
    ensures r == Redact(z, node, depth) && counter.n == old(counter.n) + Count(z, node, depth)
    decreases LongestString(node), 1, node, 0
  {
    if !IsNode(node) { return node; }
    if depth > MAX_DEPTH { return JStr(TRUNCATED); }
    if node.JArr? {
      r := RedactItems(z, node, depth, counter);
    } else {
      r := RedactFields(z, node, depth, counter);
    }
  }

  method RedactItems(z: Runtime, node: Json, depth: nat, counter: Counter) returns (r: Json)
    requires Shrinks(z) && node.JArr? && depth <= MAX_DEPTH
    modifies counter
    ensures r == Redact(z, node, depth) && counter.n == old(counter.n) + CountItems(z, node, depth, |node.items|)
    decreases LongestString(node), 1, node, 0, 0
  {
    var items: seq<Json> := [];
    for i := 0 to |node.items|
      invariant items == Redact(z, node, depth).items[..i]
      invariant counter.n == old(counter.n) + CountItems(z, node, depth, i)
    {
      ItemFits(node, i);
      var item := RedactNode(z, node.items[i], depth + 1, counter);
      items := items + [item];
    }
    r := JArr(items);
  }

  method RedactFields(z: Runtime, node: Json, depth: nat, counter: Counter) returns (r: Json)
    requires Shrinks(z) && node.JObj? && depth <= MAX_DEPTH
    modifies counter
    ensures r == Redact(z, node, depth) && counter.n == old(counter.n) + CountFields(z, node, depth, |node.fields|)
    decreases LongestString(node), 1, node, 0, 0
  {
    var out: seq<(string, Json)> := [];
    for i := 0 to |node.fields|
      invariant Assigned(z, node, depth, i, out)
      invariant counter.n == old(counter.n) + CountFields(z, node, depth, i)
    {
      FieldFits(node, i);
      var value := RedactParam(z, node.fields[i].0, node.fields[i].1, depth + 1, counter);
      AssignedNext(z, node, depth, i, out);
      if node.fields[i].0 != PROTO { out := out + [(node.fields[i].0, value)]; }
    }
    AssignedAll(z, node, depth, out);
    r := JObj(out);
  }

  /** The fields made of the first i entries. */
  ghost predicate Assigned(z: Runtime, node: Json, depth: nat, i: nat, out: seq<(string, Json)>)
    requires Shrinks(z) && node.JObj? && depth <= MAX_DEPTH && i <= |node.fields|
  {
    |out| == |Assignable(node.fields[..i])| && out <= Redact(z, node, depth).fields
  }

  lemma AssignedNext(z: Runtime, node: Json, depth: nat, i: nat, out: seq<(string, Json)>)
    requires Shrinks(z) && node.JObj? && depth <= MAX_DEPTH && i < |node.fields| && Assigned(z, node, depth, i, out)
    ensures var f := node.fields[i];
            Assigned(z, node, depth, i + 1, if f.0 == PROTO then out else out + [(f.0, RedactField(z, f.0, f.1, depth + 1))])
  {
    AssignableStep(node.fields, i);
    var f := node.fields[i];
    if f.0 != PROTO {
      RedactedAt(z, node, depth, |out|);
      PrefixGrows(out, Redact(z, node, depth).fields, (f.0, RedactField(z, f.0, f.1, depth + 1)));
    }
  }

  lemma PrefixGrows<T>(out: seq<T>, whole: seq<T>, x: T)
    requires out <= whole && |out| < |whole| && whole[|out|] == x
    ensures out + [x] <= whole
  {
  }

  lemma AssignedAll(z: Runtime, node: Json, depth: nat, out: seq<(string, Json)>)
    requires Shrinks(z) && node.JObj? && depth <= MAX_DEPTH && Assigned(z, node, depth, |node.fields|, out)
    ensures JObj(out) == Redact(z, node, depth)
  {
    assert node.fields[..|node.fields|] == node.fields;
    assert |Redact(z, node, depth).fields| == |Assignable(node.fields)|;
  }

  method RedactConfigTree(z: Runtime, configs: Json) returns (tree: Json, redacted: nat)
    requires Lawful(z)
    ensures Shrinks(z) && tree == Redact(z, configs, 0) && redacted == Count(z, configs, 0)
  {
    LawfulShrinks(z);
    if !IsNode(configs) { return configs, 0; }
    var counter := new Counter();
    tree := RedactNode(z, configs, 0, counter);
    redacted := counter.n;
  }

  // -------------------------------------------------------- nothing leaks

  /** Under every secret-named key of the tree's nodes stands the sentinel. */
  predicate Clean(v: Json)
    decreases v, 0
  {
    match v
    case JArr(items) => forall i :: 0 <= i < |items| ==> Clean(items[i])
    case JObj(fields) => forall i :: 0 <= i < |fields| ==> CleanField(fields[i].0, fields[i].1)
    case _ => true
  }

  predicate CleanField(key: string, value: Json)
    decreases value, 1
  {
    if IsSecretParamName(key) then value == JStr(REDACTED) else Clean(value)
  }

  lemma {:induction false} RedactCleans(z: Runtime, node: Json, depth: nat)
    requires Shrinks(z)
    ensures Clean(Redact(z, node, depth))
    decreases node, 0
  {
    if depth <= MAX_DEPTH && node.JArr? {
      forall i | 0 <= i < |node.items| ensures Clean(Redact(z, node.items[i], depth + 1)) {
        RedactCleans(z, node.items[i], depth + 1);
      }
    } else if depth <= MAX_DEPTH && node.JObj? {
      var own := Assignable(node.fields);
      forall i | 0 <= i < |own| ensures CleanField(own[i].0, RedactField(z, own[i].0, own[i].1, depth + 1)) {
        FieldIn(node, own[i]);
        if !own[i].1.JStr? { RedactCleans(z, own[i].1, depth + 1); }
      }
    }
  }

  lemma RedactKeepsKeys(z: Runtime, node: Json, depth: nat)
    requires Shrinks(z) && node.JObj? && depth <= MAX_DEPTH
    ensures KeysOf(Redact(z, node, depth).fields) == KeysOf(Assignable(node.fields))
  {
  }

  lemma {:induction false} RedactKeepsPlain(z: Runtime, node: Json, depth: nat)
    requires Lawful(z) && Shrinks(z) && Plain(z, node)
    ensures Plain(z, Redact(z, node, depth))
    decreases node
  {
    if depth <= MAX_DEPTH && node.JArr? {
      forall i | 0 <= i < |node.items| ensures Plain(z, Redact(z, node.items[i], depth + 1)) {
        RedactKeepsPlain(z, node.items[i], depth + 1);
      }
    } else if depth <= MAX_DEPTH && node.JObj? {
      forall f | f in Assignable(node.fields) ensures Plain(z, RedactField(z, f.0, f.1, depth + 1)) {
        FieldIn(node, f);
        PlainField(z, node, f);
        RedactKeepsPlain(z, f.1, depth + 1);
      }
      PlainObject(z, node, depth);
    }
  }

  lemma PlainField(z: Runtime, node: Json, f: (string, Json))
    requires node.JObj? && Plain(z, node) && f in node.fields
    ensures Plain(z, f.1)
  {
    var i :| 0 <= i < |node.fields| && node.fields[i] == f;
  }

  lemma PlainObject(z: Runtime, node: Json, depth: nat)
    requires Lawful(z) && Shrinks(z) && Plain(z, node) && node.JObj? && depth <= MAX_DEPTH
    requires forall f :: f in Assignable(node.fields) ==> Plain(z, RedactField(z, f.0, f.1, depth + 1))
    ensures Plain(z, Redact(z, node, depth))
  {
    var r := Redact(z, node, depth);
    RedactKeepsKeys(z, node, depth);
    forall i | 0 <= i < |r.fields| ensures Plain(z, r.fields[i].1) {
      RedactedAt(z, node, depth, i);
      assert Assignable(node.fields)[i] in Assignable(node.fields);
    }
  }

  /** What a string value becomes still carries the redacted document, and that is clean. */
  lemma EmbeddedIsRedacted(z: Runtime, value: string)
    requires Lawful(z) && Shrinks(z) && CountString(z, value) > 0
    ensures Carries(z, RedactString(z, value))
    ensures Embedded(z, RedactString(z, value)) == Some(Redact(z, Embedded(z, value).value, 1))
    ensures Clean(Embedded(z, RedactString(z, value)).value)
  {
    var doc := Embedded(z, value).value;
    RedactKeepsPlain(z, doc, 1);
    RedactCleans(z, doc, 1);
  }

  /** What a caller finds in a string value afterwards: its document is clean exactly when the pass counted something
      in it, or it was clean before. */
  lemma EmbeddedCleanExactly(z: Runtime, value: string)
    requires Lawful(z) && Shrinks(z) && Carries(z, value)
    ensures Carries(z, RedactString(z, value))
    ensures Clean(Embedded(z, RedactString(z, value)).value) <==> CountString(z, value) > 0 || Clean(Embedded(z, value).value)
  {
    if CountString(z, value) > 0 { EmbeddedIsRedacted(z, value); }
  }

  /** v under n objects of one unremarkable key each. */
  function Nest(n: nat, v: Json): Json { if n == 0 then v else JObj([("a", Nest(n - 1, v))]) }

  lemma PlainName()
    ensures !IsSecretParamName("a") && IsSecretParamName("pass")
  {
    assert Lower("a") == "a" && Lower("pass") == "pass";
    assert SECRET_WORDS[0] <= "pass"[0..];
    forall k | 0 <= k < |SECRET_WORDS| ensures !Contains("a", SECRET_WORDS[k]) {
      assert |SECRET_WORDS[k]| >= 3;
    }
  }

  lemma {:induction false} NestedBelowCap(z: Runtime, n: nat, v: Json, depth: nat)
    requires Shrinks(z) && IsNode(v) && depth + n > MAX_DEPTH
    ensures Count(z, Nest(n, v), depth) == 0
    ensures Clean(Nest(n, v)) <==> Clean(v)
  {
    PlainName();
    if n > 0 {
      NestedBelowCap(z, n - 1, v, depth + 1);
      var d := Nest(n, v);
      assert Clean(d) <==> CleanField(d.fields[0].0, d.fields[0].1);
      assert IsNode(Nest(n - 1, v));
      assert CountField(z, "a", Nest(n - 1, v), depth + 1) == 0;
      assert CountFields(z, d, depth, 1) == CountFields(z, d, depth, 0) + CountField(z, d.fields[0].0, d.fields[0].1, depth + 1);
    }
  }

  /** The case the exact condition leaves out: below the depth cap nodes are truncated without being counted, so a
      document whose secrets all lie there is handed back as it came. */
  lemma SecretsBelowCapKept(z: Runtime, value: string, v: Json)
    requires Lawful(z) && Shrinks(z) && IsNode(v) && !Clean(v) && Embedded(z, value) == Some(Nest(MAX_DEPTH, v))
    ensures RedactString(z, value) == value && !Clean(Embedded(z, RedactString(z, value)).value)
  {
    NestedBelowCap(z, MAX_DEPTH, v, 1);
  }

  /** And such a value: a password nine objects deep. */
  lemma PasswordBelowCap(z: Runtime, doc: Json)
    requires Lawful(z) && Shrinks(z) && doc == Nest(MAX_DEPTH, JObj([("pass", JStr("x"))])) && Plain(z, doc)
    ensures RedactString(z, z.stringify(doc)) == z.stringify(doc) && !Clean(doc)
    ensures Embedded(z, z.stringify(doc)) == Some(doc)
  {
    PlainName();
    var v := JObj([("pass", JStr("x"))]);
    assert !CleanField(v.fields[0].0, v.fields[0].1);
    assert IsNode(doc);
    NestedBelowCap(z, MAX_DEPTH, v, 1);
    SecretsBelowCapKept(z, z.stringify(doc), v);
  }

  /** A string held directly in an array is never opened. */
  lemma ArrayStringsKept(z: Runtime, node: Json, depth: nat, i: nat)
    requires Shrinks(z) && node.JArr? && depth <= MAX_DEPTH && i < |node.items| && node.items[i].JStr?
    ensures Redact(z, node, depth).items[i] == node.items[i]
  {
  }

  // ------------------------------------------- secrets in nested documents

  /** A pass that enters the node at this depth comes by a secret-named key, in documents carried by string fields too. */
  ghost predicate Reaches(z: Runtime, node: Json, depth: nat)
    requires Shrinks(z)
    decreases LongestString(node), 1, node, 0
  {
    depth <= MAX_DEPTH &&
    match node
    case JArr(items) => exists i :: 0 <= i < |items| && (ItemFits(node, i); Reaches(z, items[i], depth + 1))
    case JObj(fields) => exists i :: 0 <= i < |fields| && (FieldFits(node, i); ReachesIn(z, fields[i].0, fields[i].1, depth + 1))
    case _ => false
  }

  ghost predicate ReachesIn(z: Runtime, key: string, value: Json, depth: nat)
    requires Shrinks(z)
    decreases LongestString(value), 1, value, 1
  {
    IsSecretParamName(key) || if value.JStr? then ReachesInside(z, value.s) else Reaches(z, value, depth)
  }

  ghost predicate ReachesInside(z: Runtime, value: string)
    requires Shrinks(z)
    decreases |value|, 0
  {
    Carries(z, value) && Reaches(z, Embedded(z, value).value, 1)
  }

  lemma {:induction false} CountsWhatItReaches(z: Runtime, node: Json, depth: nat)
    requires Shrinks(z)
    ensures Count(z, node, depth) > 0 <==> Reaches(z, node, depth)
    decreases LongestString(node), 1, node, 0
  {
    if depth <= MAX_DEPTH && node.JArr? {
      forall i | 0 <= i < |node.items| ensures Count(z, node.items[i], depth + 1) > 0 <==> Reaches(z, node.items[i], depth + 1) {
        ItemFits(node, i);
        CountsWhatItReaches(z, node.items[i], depth + 1);
      }
      ItemsCounted(z, node, depth, |node.items|);
    } else if depth <= MAX_DEPTH && node.JObj? {
      forall i | 0 <= i < |node.fields|
        ensures CountField(z, node.fields[i].0, node.fields[i].1, depth + 1) > 0 <==> ReachesIn(z, node.fields[i].0, node.fields[i].1, depth + 1)
      {
        FieldFits(node, i);
        FieldCountsWhatItReaches(z, node.fields[i].0, node.fields[i].1, depth + 1);
      }
      FieldsCounted(z, node, depth, |node.fields|);
    }
  }

  lemma {:induction false} FieldCountsWhatItReaches(z: Runtime, key: string, value: Json, depth: nat)
    requires Shrinks(z)
    ensures CountField(z, key, value, depth) > 0 <==> ReachesIn(z, key, value, depth)
    decreases LongestString(value), 1, value, 1
  {
    if !IsSecretParamName(key) {
      if value.JStr? { StringCountsWhatItReaches(z, value.s); } else { CountsWhatItReaches(z, value, depth); }
    }
  }

  /** A string is rewritten exactly when its document holds a secret-named key within the walk's reach. */
  lemma {:induction false} StringCountsWhatItReaches(z: Runtime, value: string)
    requires Shrinks(z)
    ensures CountString(z, value) > 0 <==> ReachesInside(z, value)
    decreases |value|, 0
  {
    if Carries(z, value) { CountsWhatItReaches(z, Embedded(z, value).value, 1); }
  }

  lemma {:induction false} ItemsCounted(z: Runtime, node: Json, depth: nat, k: nat)
    requires Shrinks(z) && node.JArr? && k <= |node.items|
    ensures CountItems(z, node, depth, k) > 0 <==> exists i :: 0 <= i < k && Count(z, node.items[i], depth + 1) > 0
  {
    if k > 0 { ItemsCounted(z, node, depth, k - 1); }
  }

  lemma {:induction false} FieldsCounted(z: Runtime, node: Json, depth: nat, k: nat)
    requires Shrinks(z) && node.JObj? && k <= |node.fields|
    ensures CountFields(z, node, depth, k) > 0 <==> exists i :: 0 <= i < k && CountField(z, node.fields[i].0, node.fields[i].1, depth + 1) > 0
  {
    if k > 0 { FieldsCounted(z, node, depth, k - 1); }
  }

  /** Clean down through every document that any string of the tree carries. */
  ghost predicate DeepClean(z: Runtime, v: Json)
    requires Shrinks(z)
    decreases LongestString(v), v, 0
  {
    match v
    case JStr(s) => Carries(z, s) ==> DeepClean(z, Embedded(z, s).value)
    case JArr(items) => forall i :: 0 <= i < |items| ==> (ItemFits(v, i); DeepClean(z, items[i]))
    case JObj(fields) => forall i :: 0 <= i < |fields| ==> (FieldFits(v, i); DeepCleanField(z, fields[i].0, fields[i].1))
    case _ => true
  }

  ghost predicate DeepCleanField(z: Runtime, key: string, value: Json)
    requires Shrinks(z)
    decreases LongestString(value), value, 1
  {
    if IsSecretParamName(key) then value == JStr(REDACTED) else DeepClean(z, value)
  }

  /** What a pass that enters the node at this depth leaves of it was deep clean before: strings held directly in arrays,
      and the documents in which it reaches nothing. */
  ghost predicate LeavesClean(z: Runtime, node: Json, depth: nat)
    requires Shrinks(z)
    decreases LongestString(node), 1, node, 0
  {
    if !IsNode(node) then DeepClean(z, node)
    else if depth > MAX_DEPTH then true
    else match node
         case JArr(items) => forall i :: 0 <= i < |items| ==> (ItemFits(node, i); LeavesClean(z, items[i], depth + 1))
         case JObj(fields) => forall i :: 0 <= i < |Assignable(fields)| ==>
             var f := Assignable(fields)[i]; (FieldIn(node, f); LeavesFieldClean(z, f.0, f.1, depth + 1))
  }

  ghost predicate LeavesFieldClean(z: Runtime, key: string, value: Json, depth: nat)
    requires Shrinks(z)
    decreases LongestString(value), 1, value, 1
  {
    IsSecretParamName(key) || if value.JStr? then LeavesInsideClean(z, value.s) else LeavesClean(z, value, depth)
  }

  ghost predicate LeavesInsideClean(z: Runtime, value: string)
    requires Shrinks(z)
    decreases |value|, 0
  {
    Carries(z, value) ==>
      if Reaches(z, Embedded(z, value).value, 1) then LeavesClean(z, Embedded(z, value).value, 1) else DeepClean(z, Embedded(z, value).value)
  }

  /** Whether a redacted tree still holds a secret anywhere, nested documents included, can be told from the input. */
  lemma {:induction false} DeepCleanExactly(z: Runtime, node: Json, depth: nat)
    requires Lawful(z) && Shrinks(z)
    ensures DeepClean(z, Redact(z, node, depth)) <==> LeavesClean(z, node, depth)
    decreases LongestString(node), 1, node, 1
  {
    if IsNode(node) && depth > MAX_DEPTH {
      assert !Carries(z, TRUNCATED);
    } else if node.JArr? {
      ItemsKnown(z, node, depth);
      ArrayKnown(z, node, depth);
    } else if node.JObj? {
      FieldsKnown(z, node, depth);
      ObjectKnown(z, node, depth);
    }
  }

  lemma {:induction false} ItemsKnown(z: Runtime, node: Json, depth: nat)
    requires Lawful(z) && Shrinks(z) && node.JArr?
    ensures forall i :: 0 <= i < |node.items| ==> ItemKnown(z, node, depth, i)
    decreases LongestString(node), 1, node, 0
  {
    forall i | 0 <= i < |node.items| ensures ItemKnown(z, node, depth, i) {
      ItemFits(node, i);
      DeepCleanExactly(z, node.items[i], depth + 1);
    }
  }

  lemma {:induction false} FieldsKnown(z: Runtime, node: Json, depth: nat)
    requires Lawful(z) && Shrinks(z) && node.JObj?
    ensures forall i :: 0 <= i < |Assignable(node.fields)| ==> FieldKnown(z, node, depth, i)
    decreases LongestString(node), 1, node, 0
  {
    forall i | 0 <= i < |Assignable(node.fields)| ensures FieldKnown(z, node, depth, i) {
      var f := Assignable(node.fields)[i];
      FieldIn(node, f);
      FieldDeepCleanExactly(z, f.0, f.1, depth + 1);
    }
  }

  ghost predicate ItemKnown(z: Runtime, node: Json, depth: nat, i: nat)
    requires Shrinks(z) && node.JArr? && i < |node.items|
  {
    DeepClean(z, Redact(z, node.items[i], depth + 1)) <==> LeavesClean(z, node.items[i], depth + 1)
  }

  /** About the i-th field that is kept. */
  ghost predicate FieldKnown(z: Runtime, node: Json, depth: nat, i: nat)
    requires Shrinks(z) && node.JObj? && i < |Assignable(node.fields)|
  {
    var f := Assignable(node.fields)[i];
    DeepCleanField(z, f.0, RedactField(z, f.0, f.1, depth + 1)) <==> LeavesFieldClean(z, f.0, f.1, depth + 1)
  }

  lemma ArrayKnown(z: Runtime, node: Json, depth: nat)
    requires Shrinks(z) && node.JArr? && depth <= MAX_DEPTH && forall i :: 0 <= i < |node.items| ==> ItemKnown(z, node, depth, i)
    ensures DeepClean(z, Redact(z, node, depth)) <==> LeavesClean(z, node, depth)
  {
    RedactedItemsClean(z, node, depth);
    if DeepClean(z, Redact(z, node, depth)) {
      forall i | 0 <= i < |node.items| ensures LeavesClean(z, node.items[i], depth + 1) { assert ItemKnown(z, node, depth, i); }
    } else {
      var i :| 0 <= i < |node.items| && !DeepClean(z, Redact(z, node.items[i], depth + 1));
      assert ItemKnown(z, node, depth, i);
    }
  }

  lemma ObjectKnown(z: Runtime, node: Json, depth: nat)
    requires Shrinks(z) && node.JObj? && depth <= MAX_DEPTH && forall i :: 0 <= i < |Assignable(node.fields)| ==> FieldKnown(z, node, depth, i)
    ensures DeepClean(z, Redact(z, node, depth)) <==> LeavesClean(z, node, depth)
  {
    RedactedFieldsClean(z, node, depth);
    var own := Assignable(node.fields);
    if DeepClean(z, Redact(z, node, depth)) {
      forall i | 0 <= i < |own| ensures LeavesFieldClean(z, own[i].0, own[i].1, depth + 1) { assert FieldKnown(z, node, depth, i); }
    } else {
      var i :| 0 <= i < |own| && !DeepCleanField(z, own[i].0, RedactField(z, own[i].0, own[i].1, depth + 1));
      assert FieldKnown(z, node, depth, i);
    }
  }

  lemma RedactedItemsClean(z: Runtime, node: Json, depth: nat)
    requires Shrinks(z) && node.JArr? && depth <= MAX_DEPTH
    ensures DeepClean(z, Redact(z, node, depth)) <==> forall i :: 0 <= i < |node.items| ==> DeepClean(z, Redact(z, node.items[i], depth + 1))
  {
    var r := Redact(z, node, depth);
    assert |r.items| == |node.items|;
    assert forall i :: 0 <= i < |node.items| ==> r.items[i] == Redact(z, node.items[i], depth + 1);
  }

  lemma RedactedFieldsClean(z: Runtime, node: Json, depth: nat)
    requires Shrinks(z) && node.JObj? && depth <= MAX_DEPTH
    ensures DeepClean(z, Redact(z, node, depth)) <==>
            forall i :: 0 <= i < |Assignable(node.fields)| ==>
              var f := Assignable(node.fields)[i]; DeepCleanField(z, f.0, RedactField(z, f.0, f.1, depth + 1))
  {
    var r := Redact(z, node, depth);
    forall i | 0 <= i < |Assignable(node.fields)|
      ensures var f := Assignable(node.fields)[i]; r.JObj? && i < |r.fields| && r.fields[i] == (f.0, RedactField(z, f.0, f.1, depth + 1))
    {
      RedactedAt(z, node, depth, i);
    }
  }

  lemma {:induction false} FieldDeepCleanExactly(z: Runtime, key: string, value: Json, depth: nat)
    requires Lawful(z) && Shrinks(z)
    ensures DeepCleanField(z, key, RedactField(z, key, value, depth)) <==> LeavesFieldClean(z, key, value, depth)
    decreases LongestString(value), 1, value, 2
  {
    if !IsSecretParamName(key) {
      if value.JStr? { InsideCleanExactly(z, value.s); } else { DeepCleanExactly(z, value, depth); }
    }
  }

  /** For a string field: deep clean afterwards exactly when the pass reached a secret in its document and left the rest of it
      clean, or the document was deep clean before. */
  lemma {:induction false} InsideCleanExactly(z: Runtime, value: string)
    requires Lawful(z) && Shrinks(z)
    ensures DeepClean(z, JStr(RedactString(z, value))) <==> LeavesInsideClean(z, value)
    decreases |value|, 0
  {
    StringCountsWhatItReaches(z, value);
    if ReachesInside(z, value) {
      EmbeddedIsRedacted(z, value);
      DeepCleanExactly(z, Embedded(z, value).value, 1);
    }
  }

  // ------------------------------------------------------------ idempotence

  /** No object in the tree, embedded documents included, has a key that assignment drops. */
  ghost predicate ProtoFree(z: Runtime, v: Json)
    requires Shrinks(z)
    decreases LongestString(v), v
  {
    match v
    case JStr(s) => Carries(z, s) ==> ProtoFree(z, Embedded(z, s).value)
    case JArr(items) => forall i :: 0 <= i < |items| ==> (ItemFits(v, i); ProtoFree(z, items[i]))
    case JObj(fields) => forall i :: 0 <= i < |fields| ==> fields[i].0 != PROTO && (FieldFits(v, i); ProtoFree(z, fields[i].1))
    case _ => true
  }

  lemma {:induction false} StringTwice(z: Runtime, value: string)
    requires Lawful(z) && Shrinks(z)
    ensures RedactString(z, RedactString(z, value)) == RedactString(z, value)
    ensures ProtoFree(z, JStr(value)) ==> CountString(z, RedactString(z, value)) == CountString(z, value)
    decreases |value|, 0
  {
    if CountString(z, value) > 0 {
      EmbeddedIsRedacted(z, value);
      NodeTwice(z, Embedded(z, value).value, 1);
    }
  }

  lemma {:induction false} FieldTwice(z: Runtime, key: string, value: Json, depth: nat)
    requires Lawful(z) && Shrinks(z) && Plain(z, value)
    ensures RedactField(z, key, RedactField(z, key, value, depth), depth) == RedactField(z, key, value, depth)
    ensures ProtoFree(z, value) ==> CountField(z, key, RedactField(z, key, value, depth), depth) == CountField(z, key, value, depth)
    decreases LongestString(value), 1, value, 2
  {
    if !IsSecretParamName(key) {
      if value.JStr? {
        StringTwice(z, value.s);
      } else {
        NodeTwice(z, value, depth);
        assert !Carries(z, TRUNCATED);
      }
    }
  }

  lemma {:induction false} NodeTwice(z: Runtime, node: Json, depth: nat)
    requires Lawful(z) && Shrinks(z) && Plain(z, node)
    ensures Redact(z, Redact(z, node, depth), depth) == Redact(z, node, depth)
    ensures ProtoFree(z, node) ==> Count(z, Redact(z, node, depth), depth) == Count(z, node, depth)
    decreases LongestString(node), 1, node, 1
  {
    if depth <= MAX_DEPTH && node.JArr? {
      ItemsStable(z, node, depth);
      StableArray(z, node, depth);
      if ProtoFree(z, node) { ArrayTwice(z, node, depth); }
    } else if depth <= MAX_DEPTH && node.JObj? {
      FieldsStable(z, node, depth);
      StableObject(z, node, depth);
      if ProtoFree(z, node) { ObjectTwice(z, node, depth); }
    }
  }

  lemma {:induction false} ItemsStable(z: Runtime, node: Json, depth: nat)
    requires Lawful(z) && Shrinks(z) && Plain(z, node) && node.JArr?
    ensures forall i :: 0 <= i < |node.items| ==> ItemStable(z, node, depth, i)
    decreases LongestString(node), 1, node, 0
  {
    forall i | 0 <= i < |node.items| ensures ItemStable(z, node, depth, i) {
      ItemFits(node, i);
      NodeTwice(z, node.items[i], depth + 1);
    }
  }

  lemma {:induction false} FieldsStable(z: Runtime, node: Json, depth: nat)
    requires Lawful(z) && Shrinks(z) && Plain(z, node) && node.JObj?
    ensures forall i :: 0 <= i < |Assignable(node.fields)| ==> FieldStable(z, node, depth, i)
    decreases LongestString(node), 1, node, 0
  {
    forall i | 0 <= i < |Assignable(node.fields)| ensures FieldStable(z, node, depth, i) {
      var f := Assignable(node.fields)[i];
      FieldIn(node, f);
      PlainField(z, node, f);
      FieldTwice(z, f.0, f.1, depth + 1);
    }
  }

  ghost predicate ItemStable(z: Runtime, node: Json, depth: nat, i: nat)
    requires Shrinks(z) && node.JArr? && i < |node.items|
  {
    var r := Redact(z, node.items[i], depth + 1);
    Redact(z, r, depth + 1) == r && (ProtoFree(z, node.items[i]) ==> Count(z, r, depth + 1) == Count(z, node.items[i], depth + 1))
  }

  /** About the i-th field that is kept. */
  ghost predicate FieldStable(z: Runtime, node: Json, depth: nat, i: nat)
    requires Shrinks(z) && node.JObj? && i < |Assignable(node.fields)|
  {
    var f := Assignable(node.fields)[i];
    var r := RedactField(z, f.0, f.1, depth + 1);
    RedactField(z, f.0, r, depth + 1) == r && (ProtoFree(z, f.1) ==> CountField(z, f.0, r, depth + 1) == CountField(z, f.0, f.1, depth + 1))
  }

  lemma StableArray(z: Runtime, node: Json, depth: nat)
    requires Shrinks(z) && depth <= MAX_DEPTH && node.JArr?
    requires forall i :: 0 <= i < |node.items| ==> ItemStable(z, node, depth, i)
    ensures Redact(z, Redact(z, node, depth), depth) == Redact(z, node, depth)
  {
    var once := Redact(z, node, depth).items;
    var twice := Redact(z, Redact(z, node, depth), depth).items;
    assert |twice| == |once|;
    forall i | 0 <= i < |once| ensures twice[i] == once[i] {
      assert ItemStable(z, node, depth, i);
    }
    assert twice == once;
  }

  lemma RedactedAssignable(z: Runtime, node: Json, depth: nat)
    requires Shrinks(z) && depth <= MAX_DEPTH && node.JObj?
    ensures Redact(z, node, depth).JObj? && Assignable(Redact(z, node, depth).fields) == Redact(z, node, depth).fields
  {
    var once := Redact(z, node, depth).fields;
    forall i | 0 <= i < |once| ensures once[i].0 != PROTO {
      RedactedAt(z, node, depth, i);
      assert Assignable(node.fields)[i] in Assignable(node.fields);
    }
    AllAssignable(once);
  }

  lemma StableObject(z: Runtime, node: Json, depth: nat)
    requires Shrinks(z) && depth <= MAX_DEPTH && node.JObj?
    requires forall i :: 0 <= i < |Assignable(node.fields)| ==> FieldStable(z, node, depth, i)
    ensures Redact(z, Redact(z, node, depth), depth) == Redact(z, node, depth)
  {
    RedactedAssignable(z, node, depth);
    var once := Redact(z, node, depth);
    var twice := Redact(z, once, depth);
    assert |twice.fields| == |once.fields|;
    forall i | 0 <= i < |once.fields| ensures twice.fields[i] == once.fields[i] {
      RedactedAt(z, node, depth, i);
      RedactedAt(z, once, depth, i);
      assert FieldStable(z, node, depth, i);
    }
    assert twice.fields == once.fields;
  }

  ghost predicate ItemCountsAlike(z: Runtime, node: Json, r: Json, depth: nat, i: nat)
    requires Shrinks(z) && node.JArr? && r.JArr? && i < |node.items| && i < |r.items|
  {
    Count(z, r.items[i], depth + 1) == Count(z, node.items[i], depth + 1)
  }

  lemma {:induction false} ItemsCountAlike(z: Runtime, node: Json, r: Json, depth: nat, k: nat)
    requires Shrinks(z) && node.JArr? && r.JArr? && k <= |node.items| == |r.items|
    requires forall i :: 0 <= i < |node.items| ==> ItemCountsAlike(z, node, r, depth, i)
    ensures CountItems(z, r, depth, k) == CountItems(z, node, depth, k)
  {
    if k > 0 {
      ItemsCountAlike(z, node, r, depth, k - 1);
      assert ItemCountsAlike(z, node, r, depth, k - 1);
    }
  }

  lemma ArrayTwice(z: Runtime, node: Json, depth: nat)
    requires Shrinks(z) && depth <= MAX_DEPTH && node.JArr? && ProtoFree(z, node)
    requires forall i :: 0 <= i < |node.items| ==> ItemStable(z, node, depth, i)
    ensures Count(z, Redact(z, node, depth), depth) == Count(z, node, depth)
  {
    var r := Redact(z, node, depth);
    forall i | 0 <= i < |node.items| ensures ItemCountsAlike(z, node, r, depth, i) {
      assert ItemStable(z, node, depth, i);
    }
    ItemsCountAlike(z, node, r, depth, |node.items|);
  }

  ghost predicate FieldCountsAlike(z: Runtime, node: Json, r: Json, depth: nat, i: nat)
    requires Shrinks(z) && node.JObj? && r.JObj? && i < |node.fields| && i < |r.fields|
  {
    CountField(z, r.fields[i].0, r.fields[i].1, depth + 1) == CountField(z, node.fields[i].0, node.fields[i].1, depth + 1)
  }

  lemma {:induction false} FieldsCountAlike(z: Runtime, node: Json, r: Json, depth: nat, k: nat)
    requires Shrinks(z) && node.JObj? && r.JObj? && k <= |node.fields| == |r.fields|
    requires forall i :: 0 <= i < |node.fields| ==> FieldCountsAlike(z, node, r, depth, i)
    ensures CountFields(z, r, depth, k) == CountFields(z, node, depth, k)
  {
    if k > 0 {
      FieldsCountAlike(z, node, r, depth, k - 1);
      assert FieldCountsAlike(z, node, r, depth, k - 1);
    }
  }

  lemma ObjectTwice(z: Runtime, node: Json, depth: nat)
    requires Shrinks(z) && depth <= MAX_DEPTH && node.JObj? && ProtoFree(z, node)
    requires forall i :: 0 <= i < |Assignable(node.fields)| ==> FieldStable(z, node, depth, i)
    ensures Count(z, Redact(z, node, depth), depth) == Count(z, node, depth)
  {
    AllAssignable(node.fields);
    var r := Redact(z, node, depth);
    forall i | 0 <= i < |node.fields| ensures FieldCountsAlike(z, node, r, depth, i) {
      RedactedAt(z, node, depth, i);
      assert FieldStable(z, node, depth, i);
    }
    FieldsCountAlike(z, node, r, depth, |node.fields|);
  }

  /** Redacting a redacted config tree changes nothing, and reports the same number of params when no object in it has a
      key that assignment drops. */
  lemma RedactionIdempotent(z: Runtime, configs: Json)
    requires Lawful(z) && Shrinks(z) && Plain(z, configs)
    ensures Clean(Redact(z, configs, 0))
    ensures Redact(z, Redact(z, configs, 0), 0) == Redact(z, configs, 0)
    ensures ProtoFree(z, configs) ==> Count(z, Redact(z, configs, 0), 0) == Count(z, configs, 0)
  {
    RedactCleans(z, configs, 0);
    NodeTwice(z, configs, 0);
  }
}
