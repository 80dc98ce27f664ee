/** The consensus-rules digest: an order-insensitive printer behind a hash (src/consensus_rules_digest.js). */
module RulesDigest {
  import opened Facts
  import opened JsValues
  import opened Ordering
  import opened JsonText

  const ABSENT := "<absent>"

  predicate HasKey(fields: seq<(string, Json)>, k: string) { exists i :: 0 <= i < |fields| && fields[i].0 == k }

  /** The value an object holds under a key. */
  function ValueAt(fields: seq<(string, Json)>, k: string): (v: Json)
    requires HasKey(fields, k)
    ensures (k, v) in fields
  {
    if fields[0].0 == k then fields[0].1
    else assert HasKey(fields[1..], k) by { var i :| 0 <= i < |fields| && fields[i].0 == k; assert fields[1..][i - 1].0 == k; }
         ValueAt(fields[1..], k)
  }

  lemma {:induction false} ValueAtIs(fields: seq<(string, Json)>, e: (string, Json))
    requires DistinctFields(fields) && e in fields
    ensures HasKey(fields, e.0) && ValueAt(fields, e.0) == e.1
  {
    var i :| 0 <= i < |fields| && fields[i] == e;
    var k :| 0 <= k < |fields| && fields[k] == (e.0, ValueAt(fields, e.0));
  }

  /** Equal up to the order of object keys. */
  ghost predicate Same(v: Json, w: Json)
    decreases v
  {
    match (v, w)
    case (JArr(xs), JArr(ys)) => |xs| == |ys| && forall i :: 0 <= i < |xs| ==> Same(xs[i], ys[i])
    case (JObj(fs), JObj(gs)) =>
      && |fs| == |gs|
      && (forall i :: 0 <= i < |fs| ==> HasKey(gs, fs[i].0) && Same(fs[i].1, ValueAt(gs, fs[i].0)))
      && (forall j :: 0 <= j < |gs| ==> HasKey(fs, gs[j].0))
    case _ => v == w
  }

  // --------------------------------------------------------------- printing

  predicate KeyLe(a: (string, Json), b: (string, Json)) { StrLe(a.0, b.0) }

  function Canonical(v: Json): string
    decreases v
  {
    match v
    case JNull => "null"
    case JBool(b) => if b then "true" else "false"
    case JNum(text) => text
    case JStr(s) => Quote(s)
    case JArr(items) => "[" + (Items(items, v) + "]")
    case JObj(fields) => "{" + (Entries(SortedFields(fields), v) + "}")
  }

  function SortedFields(fields: seq<(string, Json)>): (r: seq<(string, Json)>)
    ensures forall e :: e in r <==> e in fields
  {
    assert forall e :: e in Sort(KeyLe, fields) <==> e in fields by {
      forall e ensures e in Sort(KeyLe, fields) <==> e in fields { SortMembers(KeyLe, fields, e); }
    }
    Sort(KeyLe, fields)
  }

  function Items(items: seq<Json>, parent: Json): string
    requires parent.JArr? && forall x :: x in items ==> x in parent.items
    decreases parent, |items|
  {
    if items == [] then ""
    else assert items[0] in items;
         Canonical(items[0]) + (if |items| == 1 then "" else "," + Items(items[1..], parent))
  }

  function Entries(entries: seq<(string, Json)>, parent: Json): string
    requires parent.JObj? && forall e :: e in entries ==> e in parent.fields
    decreases parent, |entries|
  {
    if entries == [] then ""
    else assert entries[0] in entries;
         Quote(entries[0].0) + (":" + (Canonical(entries[0].1) + (if |entries| == 1 then "" else "," + Entries(entries[1..], parent))))
  }

  // ----------------------------------------------------------- unambiguity

  /** What may follow a printed value. */
  predicate Terminated(s: string) { s == "" || s[0] == ',' || s[0] == ']' || s[0] == '}' || s[0] == '\n' }

  predicate OpensWith(c: char, v: Json) {
    match v
    case JNull => c == 'n'
    case JBool(b) => c == if b then 't' else 'f'
    case JNum(_) => '0' <= c <= '9' || c == '-'
    case JStr(_) => c == '"'
    case JArr(_) => c == '['
    case JObj(_) => c == '{'
  }

  /** A printed value shows its kind in its first character. */
  lemma CanonicalOpens(v: Json, a: string)
    requires Data(v)
    ensures Canonical(v) != "" && OpensWith((Canonical(v) + a)[0], v)
  {
  }

  lemma NumberDecides(s: string, t: string, a: string, b: string)
    requires NumberText(s) && NumberText(t) && Terminated(a) && Terminated(b) && s + a == t + b
    ensures s == t && a == b
  {
    var x := s + a;
    assert x == t + b;
    assert forall i :: 0 <= i < |t| ==> x[i] == t[i] && NumberChar(x[i]);
    assert forall i :: 0 <= i < |s| ==> x[i] == s[i] && NumberChar(x[i]);
    assert |s| < |x| ==> x[|s|] == a[0] && !NumberChar(x[|s|]);
    assert |t| < |x| ==> x[|t|] == b[0] && !NumberChar(x[|t|]);
    assert s == x[..|s|] && t == x[..|t|] && a == x[|s|..] && b == x[|t|..];
  }

  // --- arrays

  ghost predicate Within(xs: seq<Json>, parent: Json) {
    parent.JArr? && forall x :: x in xs ==> x in parent.items && Data(x)
  }

  function ItemsRest(items: seq<Json>, parent: Json, a: string): string
    requires items != [] && Within(items, parent)
  {
    if |items| == 1 then "]" + a else "," + (Items(items[1..], parent) + ("]" + a))
  }

  lemma ItemsSplit(items: seq<Json>, parent: Json, a: string)
    requires items != [] && Within(items, parent)
    ensures Items(items, parent) + ("]" + a) == Canonical(items[0]) + ItemsRest(items, parent, a)
    ensures (Items(items, parent) + ("]" + a))[0] != ']' && Terminated(ItemsRest(items, parent, a))
  {
    assert items[0] in items;
    CanonicalOpens(items[0], ItemsRest(items, parent, a));
  }

  lemma ItemsEnd(xs: seq<Json>, v: Json, ys: seq<Json>, w: Json, a: string, b: string)
    requires Within(xs, v) && Within(ys, w) && (xs == [] || ys == [])
    requires Items(xs, v) + ("]" + a) == Items(ys, w) + ("]" + b)
    ensures xs == [] && ys == [] && a == b
  {
    if xs != [] { ItemsSplit(xs, v, a); }
    if ys != [] { ItemsSplit(ys, w, b); }
    assert Items([], v) + ("]" + a) == "]" + a && Items([], w) + ("]" + b) == "]" + b;
    StripPrefix("]", a, b);
  }

  lemma ItemsNext(xs: seq<Json>, v: Json, ys: seq<Json>, w: Json, a: string, b: string)
    requires xs != [] && ys != [] && Within(xs, v) && Within(ys, w) && ItemsRest(xs, v, a) == ItemsRest(ys, w, b)
    ensures |xs| == 1 <==> |ys| == 1
    ensures |xs| == 1 ==> a == b
    ensures |xs| > 1 ==> Items(xs[1..], v) + ("]" + a) == Items(ys[1..], w) + ("]" + b)
  {
    var x, y := ItemsRest(xs, v, a), ItemsRest(ys, w, b);
    assert x[0] == y[0] && x[1..] == y[1..];
  }

  // --- objects

  ghost predicate FieldsWithin(es: seq<(string, Json)>, parent: Json) {
    parent.JObj? && forall e :: e in es ==> e in parent.fields && Data(e.1)
  }

  function EntriesRest(es: seq<(string, Json)>, parent: Json, a: string): string
    requires es != [] && FieldsWithin(es, parent)
  {
    if |es| == 1 then "}" + a else "," + (Entries(es[1..], parent) + ("}" + a))
  }

  lemma Nest(quoted: string, text: string, tail: string, end: string)
    ensures (quoted + (":" + (text + tail))) + end == quoted + (":" + (text + (tail + end)))
  {
    Regroup(quoted, ":" + (text + tail), end);
    Regroup(":", text + tail, end);
    Regroup(text, tail, end);
  }

  function EntriesTail(es: seq<(string, Json)>, parent: Json): string
    requires es != [] && FieldsWithin(es, parent)
  {
    if |es| == 1 then "" else "," + Entries(es[1..], parent)
  }

  lemma EntriesTailThen(es: seq<(string, Json)>, parent: Json, a: string)
    requires es != [] && FieldsWithin(es, parent)
    ensures EntriesTail(es, parent) + ("}" + a) == EntriesRest(es, parent, a)
    ensures Terminated(EntriesRest(es, parent, a))
  {
    if |es| > 1 { Regroup(",", Entries(es[1..], parent), "}" + a); }
  }

  lemma EntriesSplit(es: seq<(string, Json)>, parent: Json, a: string)
    requires es != [] && FieldsWithin(es, parent)
    ensures Entries(es, parent) + ("}" + a) == Quote(es[0].0) + (":" + (Canonical(es[0].1) + EntriesRest(es, parent, a)))
    ensures (Entries(es, parent) + ("}" + a))[0] == '"'
  {
    assert es[0] in es;
    assert Entries(es, parent) == Quote(es[0].0) + (":" + (Canonical(es[0].1) + EntriesTail(es, parent)));
    EntriesTailThen(es, parent, a);
    Nest(Quote(es[0].0), Canonical(es[0].1), EntriesTail(es, parent), "}" + a);
  }

  lemma EntriesEnd(es: seq<(string, Json)>, v: Json, ds: seq<(string, Json)>, w: Json, a: string, b: string)
    requires FieldsWithin(es, v) && FieldsWithin(ds, w) && (es == [] || ds == [])
    requires Entries(es, v) + ("}" + a) == Entries(ds, w) + ("}" + b)
    ensures es == [] && ds == [] && a == b
  {
    if es != [] { EntriesSplit(es, v, a); }
    if ds != [] { EntriesSplit(ds, w, b); }
    assert Entries([], v) + ("}" + a) == "}" + a && Entries([], w) + ("}" + b) == "}" + b;
    StripPrefix("}", a, b);
  }

  lemma EntriesHead(es: seq<(string, Json)>, v: Json, ds: seq<(string, Json)>, w: Json, a: string, b: string)
    requires es != [] && ds != [] && FieldsWithin(es, v) && FieldsWithin(ds, w)
    requires Entries(es, v) + ("}" + a) == Entries(ds, w) + ("}" + b)
    ensures es[0].0 == ds[0].0
    ensures Canonical(es[0].1) + EntriesRest(es, v, a) == Canonical(ds[0].1) + EntriesRest(ds, w, b)
  {
    EntriesSplit(es, v, a);
    EntriesSplit(ds, w, b);
    var x, y := Canonical(es[0].1) + EntriesRest(es, v, a), Canonical(ds[0].1) + EntriesRest(ds, w, b);
    QuoteDecides(es[0].0, ds[0].0, ":" + x, ":" + y);
    StripPrefix(":", x, y);
  }

  lemma EntriesNext(es: seq<(string, Json)>, v: Json, ds: seq<(string, Json)>, w: Json, a: string, b: string)
    requires es != [] && ds != [] && FieldsWithin(es, v) && FieldsWithin(ds, w) && EntriesRest(es, v, a) == EntriesRest(ds, w, b)
    ensures |es| == 1 <==> |ds| == 1
    ensures |es| == 1 ==> a == b
    ensures |es| > 1 ==> Entries(es[1..], v) + ("}" + a) == Entries(ds[1..], w) + ("}" + b)
  {
    var x, y := EntriesRest(es, v, a), EntriesRest(ds, w, b);
    assert x[0] == y[0] && x[1..] == y[1..];
  }

  // --- the whole value

  ghost predicate AllSame(xs: seq<Json>, ys: seq<Json>) {
    |xs| == |ys| && forall i :: 0 <= i < |xs| ==> Same(xs[i], ys[i])
  }

  /** The same keys in the same order, every value the same up to key order. */
  ghost predicate AllSameFields(es: seq<(string, Json)>, ds: seq<(string, Json)>) {
    |es| == |ds| && forall i :: 0 <= i < |es| ==> es[i].0 == ds[i].0 && Same(es[i].1, ds[i].1)
  }

  /** A printed value ends where it says it ends, and says which value it is up to key order. */
  lemma {:induction false} CanonicalDecides(v: Json, w: Json, a: string, b: string)
    requires Data(v) && Data(w) && Terminated(a) && Terminated(b)
    requires Canonical(v) + a == Canonical(w) + b
    ensures Same(v, w) && a == b
    decreases v
  {
    CanonicalOpens(v, a);
    CanonicalOpens(w, b);
    if v.JArr? {
      ArrayDecides(v, w, a, b);
    } else if v.JObj? {
      ObjectDecides(v, w, a, b);
    } else {
      ScalarDecides(v, w, a, b);
    }
  }

  lemma ScalarDecides(v: Json, w: Json, a: string, b: string)
    requires Data(v) && Data(w) && Terminated(a) && Terminated(b) && !v.JArr? && !v.JObj?
    requires Canonical(v) + a == Canonical(w) + b
    ensures v == w && a == b
  {
    CanonicalOpens(v, a);
    CanonicalOpens(w, b);
    if v.JNum? {
      NumberDecides(v.text, w.text, a, b);
    } else if v.JStr? {
      QuoteDecides(v.s, w.s, a, b);
    } else {
      assert v == w;
      assert a == (Canonical(v) + a)[|Canonical(v)|..] && b == (Canonical(w) + b)[|Canonical(w)|..];
    }
  }

  lemma {:induction false} ArrayDecides(v: Json, w: Json, a: string, b: string)
    requires v.JArr? && w.JArr? && Data(v) && Data(w) && Terminated(a) && Terminated(b)
    requires Canonical(v) + a == Canonical(w) + b
    ensures Same(v, w) && a == b
    decreases v, 1, 0
  {
    assert Canonical(v) + a == "[" + (Items(v.items, v) + ("]" + a)) && Canonical(w) + b == "[" + (Items(w.items, w) + ("]" + b));
    StripPrefix("[", Items(v.items, v) + ("]" + a), Items(w.items, w) + ("]" + b));
    assert Within(v.items, v) && Within(w.items, w);
    ItemsDecide(v, w, v.items, w.items, a, b);
  }

  lemma {:induction false} ItemsDecide(v: Json, w: Json, xs: seq<Json>, ys: seq<Json>, a: string, b: string)
    requires Within(xs, v) && Within(ys, w) && Terminated(a) && Terminated(b)
    requires Items(xs, v) + ("]" + a) == Items(ys, w) + ("]" + b)
    ensures AllSame(xs, ys) && a == b
    decreases v, 0, |xs|
  {
    if xs == [] || ys == [] {
      ItemsEnd(xs, v, ys, w, a, b);
    } else {
      ItemsSplit(xs, v, a);
      ItemsSplit(ys, w, b);
      assert xs[0] in xs && ys[0] in ys;
      CanonicalDecides(xs[0], ys[0], ItemsRest(xs, v, a), ItemsRest(ys, w, b));
      ItemsNext(xs, v, ys, w, a, b);
      if |xs| > 1 { ItemsDecide(v, w, xs[1..], ys[1..], a, b); }
    }
  }

  lemma ObjectText(v: Json, a: string)
    requires v.JObj? && Data(v)
    ensures FieldsWithin(SortedFields(v.fields), v)
    ensures Canonical(v) + a == "{" + (Entries(SortedFields(v.fields), v) + ("}" + a))
  {
    var text := Entries(SortedFields(v.fields), v);
    Regroup("{", text + "}", a);
    Regroup(text, "}", a);
  }

  lemma {:induction false} ObjectDecides(v: Json, w: Json, a: string, b: string)
    requires v.JObj? && w.JObj? && Data(v) && Data(w) && Terminated(a) && Terminated(b)
    requires Canonical(v) + a == Canonical(w) + b
    ensures Same(v, w) && a == b
    decreases v, 1, 0
  {
    var es, ds := SortedFields(v.fields), SortedFields(w.fields);
    ObjectText(v, a);
    ObjectText(w, b);
    StripPrefix("{", Entries(es, v) + ("}" + a), Entries(ds, w) + ("}" + b));
    EntriesDecide(v, w, es, ds, a, b);
    SameFields(v, w, es, ds);
  }

  lemma {:induction false} EntriesDecide(v: Json, w: Json, es: seq<(string, Json)>, ds: seq<(string, Json)>, a: string, b: string)
    requires FieldsWithin(es, v) && FieldsWithin(ds, w) && Terminated(a) && Terminated(b)
    requires Entries(es, v) + ("}" + a) == Entries(ds, w) + ("}" + b)
    ensures AllSameFields(es, ds) && a == b
    decreases v, 0, |es|
  {
    if es == [] || ds == [] {
      EntriesEnd(es, v, ds, w, a, b);
    } else {
      EntriesHead(es, v, ds, w, a, b);
      EntriesTailThen(es, v, a);
      EntriesTailThen(ds, w, b);
      assert es[0] in es && ds[0] in ds;
      CanonicalDecides(es[0].1, ds[0].1, EntriesRest(es, v, a), EntriesRest(ds, w, b));
      EntriesNext(es, v, ds, w, a, b);
      if |es| > 1 { EntriesDecide(v, w, es[1..], ds[1..], a, b); }
      SameFieldsUnfold(es, ds);
    }
  }

  lemma SameFieldsUnfold(es: seq<(string, Json)>, ds: seq<(string, Json)>)
    requires es != [] && ds != []
    ensures AllSameFields(es, ds) <==> es[0].0 == ds[0].0 && Same(es[0].1, ds[0].1) && AllSameFields(es[1..], ds[1..])
  {
    if AllSameFields(es[1..], ds[1..]) {
      assert forall i :: 1 <= i < |es| ==> es[i] == es[1..][i - 1] && ds[i] == ds[1..][i - 1];
    }
  }

  lemma SameField(f: (string, Json), es: seq<(string, Json)>, ds: seq<(string, Json)>, fields: seq<(string, Json)>)
    requires AllSameFields(es, ds) && f in es && DistinctFields(fields) && forall d :: d in ds ==> d in fields
    ensures HasKey(fields, f.0) && Same(f.1, ValueAt(fields, f.0))
  {
    var k :| 0 <= k < |es| && es[k] == f;
    assert ds[k] in ds;
    ValueAtIs(fields, ds[k]);
  }

  lemma KeyFound(v: Json, es: seq<(string, Json)>, ds: seq<(string, Json)>, d: (string, Json))
    requires v.JObj? && DistinctFields(v.fields) && es == SortedFields(v.fields) && AllSameFields(es, ds) && d in ds
    ensures HasKey(v.fields, d.0)
  {
    var k :| 0 <= k < |ds| && ds[k] == d;
    assert es[k] in v.fields;
    ValueAtIs(v.fields, es[k]);
  }

  lemma SameFields(v: Json, w: Json, es: seq<(string, Json)>, ds: seq<(string, Json)>)
    requires v.JObj? && w.JObj? && DistinctFields(v.fields) && DistinctFields(w.fields)
    requires es == SortedFields(v.fields) && ds == SortedFields(w.fields) && AllSameFields(es, ds)
    ensures Same(v, w)
  {
    SortElements(KeyLe, v.fields);
    SortElements(KeyLe, w.fields);
    forall i | 0 <= i < |v.fields| ensures HasKey(w.fields, v.fields[i].0) && Same(v.fields[i].1, ValueAt(w.fields, v.fields[i].0)) {
      assert v.fields[i] in es;
      SameField(v.fields[i], es, ds, w.fields);
    }
    forall j | 0 <= j < |w.fields| ensures HasKey(v.fields, w.fields[j].0) {
      assert w.fields[j] in ds;
      KeyFound(v, es, ds, w.fields[j]);
    }
  }

  // ------------------------------------------------- key order does not show

  function Keys(fields: seq<(string, Json)>): seq<string> { seq(|fields|, i requires 0 <= i < |fields| => fields[i].0) }

  lemma SortKeepsDistinctKeys(fields: seq<(string, Json)>)
    requires DistinctFields(fields)
    ensures DistinctFields(SortedFields(fields))
  {
    var es := SortedFields(fields);
    SortElements(KeyLe, fields);
    forall i, j | 0 <= i < j < |es| ensures es[i].0 != es[j].0 {
      if es[i].0 == es[j].0 {
        assert es[i] in fields && es[j] in fields;
        ValueAtIs(fields, es[i]);
        ValueAtIs(fields, es[j]);
        CountedTwice(es, i, j);
        DistinctMultiplicity(fields, es[i]);
      }
    }
  }

  lemma SortedKeys(fields: seq<(string, Json)>)
    requires DistinctFields(fields)
    ensures Sorted(StrLe, Keys(SortedFields(fields))) && DistinctFields(SortedFields(fields))
  {
    StrLeIsTotalOrder();
    assert Preorder(KeyLe);
    SortSorted(KeyLe, fields);
    SortKeepsDistinctKeys(fields);
  }

  lemma KeyMembers(es: seq<(string, Json)>, fields: seq<(string, Json)>, k: string)
    requires forall e :: e in es <==> e in fields
    ensures k in Keys(es) <==> HasKey(fields, k)
  {
    if k in Keys(es) {
      var i :| 0 <= i < |es| && es[i].0 == k;
      assert es[i] in fields;
    }
    if HasKey(fields, k) {
      var i :| 0 <= i < |fields| && fields[i].0 == k;
      assert fields[i] in es;
      var j :| 0 <= j < |es| && es[j] == fields[i];
      assert Keys(es)[j] == k;
    }
  }

  /** Two objects with the same keys list them alike once sorted. */
  lemma SameKeyOrder(fs: seq<(string, Json)>, gs: seq<(string, Json)>)
    requires DistinctFields(fs) && DistinctFields(gs) && forall k :: HasKey(fs, k) <==> HasKey(gs, k)
    ensures Keys(SortedFields(fs)) == Keys(SortedFields(gs))
  {
    SortedKeys(fs);
    SortedKeys(gs);
    var a, b := Keys(SortedFields(fs)), Keys(SortedFields(gs));
    forall k ensures multiset(a)[k] == multiset(b)[k] {
      KeyMembers(SortedFields(fs), fs, k);
      KeyMembers(SortedFields(gs), gs, k);
      DistinctMultiplicity(a, k);
      DistinctMultiplicity(b, k);
    }
    assert multiset(a) == multiset(b);
    StrLeIsTotalOrder();
    SortedUnique(StrLe, a, b);
  }

  lemma SameObjectFields(v: Json, w: Json)
    requires v.JObj? && w.JObj? && DistinctFields(v.fields) && DistinctFields(w.fields) && Same(v, w)
    ensures AllSameFields(SortedFields(v.fields), SortedFields(w.fields))
  {
    forall k ensures HasKey(v.fields, k) <==> HasKey(w.fields, k) {
      if HasKey(v.fields, k) { var i :| 0 <= i < |v.fields| && v.fields[i].0 == k; }
      if HasKey(w.fields, k) { var i :| 0 <= i < |w.fields| && w.fields[i].0 == k; }
    }
    SameKeyOrder(v.fields, w.fields);
    var es, ds := SortedFields(v.fields), SortedFields(w.fields);
    assert |es| == |Keys(es)| == |Keys(ds)| == |ds|;
    forall i | 0 <= i < |es| ensures es[i].0 == ds[i].0 && Same(es[i].1, ds[i].1) {
      assert Keys(es)[i] == Keys(ds)[i];
      assert es[i] in es && ds[i] in ds;
      var k :| 0 <= k < |v.fields| && v.fields[k] == es[i];
      ValueAtIs(w.fields, ds[i]);
    }
  }

  lemma {:induction false} SamePrintsAlike(v: Json, w: Json)
    requires Data(v) && Data(w) && Same(v, w)
    ensures Canonical(v) == Canonical(w)
    decreases v
  {
    if v.JArr? {
      assert Within(v.items, v) && Within(w.items, w) && AllSame(v.items, w.items);
      SameItems(v, w, v.items, w.items);
    } else if v.JObj? {
      SameObjectFields(v, w);
      ObjectText(v, "");
      ObjectText(w, "");
      SameEntries(v, w, SortedFields(v.fields), SortedFields(w.fields));
    }
  }

  lemma {:induction false} SameItems(v: Json, w: Json, xs: seq<Json>, ys: seq<Json>)
    requires Within(xs, v) && Within(ys, w) && AllSame(xs, ys)
    ensures Items(xs, v) == Items(ys, w)
    decreases v, |xs|
  {
    if xs != [] {
      assert xs[0] in xs && ys[0] in ys;
      SamePrintsAlike(xs[0], ys[0]);
      SameItems(v, w, xs[1..], ys[1..]);
    }
  }

  lemma {:induction false} SameEntries(v: Json, w: Json, es: seq<(string, Json)>, ds: seq<(string, Json)>)
    requires FieldsWithin(es, v) && FieldsWithin(ds, w) && AllSameFields(es, ds)
    ensures Entries(es, v) == Entries(ds, w)
    decreases v, |es|
  {
    if es != [] {
      assert es[0] in es && ds[0] in ds;
      SamePrintsAlike(es[0].1, ds[0].1);
      SameEntries(v, w, es[1..], ds[1..]);
    }
  }

  // ------------------------------------------------------------- the digest

  /** A gate's text in the preimage and in the published gates map. */
  function GateText(v: Json): string { if v == JStr(ABSENT) then ABSENT else Canonical(v) }

  function Preimage(gates: seq<(string, Json)>): string {
    if gates == [] then ""
    else gates[0].0 + ("=" + (GateText(gates[0].1) + (if |gates| == 1 then "" else "\n" + Preimage(gates[1..]))))
  }

  /** { '<module>.<EXPORT>': text }, filled in declaration order. */
  function GatesOf(gates: seq<(string, Json)>): map<string, string> {
    if gates == [] then map[]
    else var last := gates[|gates| - 1]; GatesOf(gates[..|gates| - 1])[last.0 := GateText(last.1)]
  }

  lemma {:induction false} GatesOfKeys(gates: seq<(string, Json)>, k: string)
    ensures k in GatesOf(gates) <==> exists i :: 0 <= i < |gates| && gates[i].0 == k
  {
    if gates != [] {
      var front := gates[..|gates| - 1];
      GatesOfKeys(front, k);
      assert forall i :: 0 <= i < |front| ==> front[i] == gates[i];
      assert gates[|gates| - 1] == gates[|front|];
    }
  }

  lemma {:induction false} GatesOfAt(gates: seq<(string, Json)>, i: nat)
    requires DistinctFields(gates) && i < |gates|
    ensures gates[i].0 in GatesOf(gates) && GatesOf(gates)[gates[i].0] == GateText(gates[i].1)
  {
    if i < |gates| - 1 {
      var front := gates[..|gates| - 1];
      assert front[i] == gates[i];
      GatesOfAt(front, i);
    }
  }

  lemma GateDecides(v: Json, w: Json, a: string, b: string)
    requires Data(v) && Data(w) && Terminated(a) && Terminated(b) && GateText(v) + a == GateText(w) + b
    ensures Same(v, w) && a == b
  {
    CanonicalOpens(v, a);
    CanonicalOpens(w, b);
    assert (ABSENT + a)[0] == '<' && (ABSENT + b)[0] == '<';
    if v == JStr(ABSENT) {
      assert a == (ABSENT + a)[|ABSENT|..] && b == (ABSENT + b)[|ABSENT|..];
    } else {
      CanonicalDecides(v, w, a, b);
    }
  }

  lemma SameText(v: Json, w: Json)
    requires Data(v) && Data(w)
    ensures GateText(v) == GateText(w) <==> Same(v, w)
  {
    if Same(v, w) { SamePrintsAlike(v, w); }
    if GateText(v) == GateText(w) {
      assert GateText(v) + "" == GateText(w) + "";
      GateDecides(v, w, "", "");
    }
  }

  /** Gate names are free of the separator; values are plain data. */
  ghost predicate Gates(fs: seq<(string, Json)>) {
    forall i :: 0 <= i < |fs| ==> '=' !in fs[i].0 && Data(fs[i].1)
  }

  function PreimageRest(gates: seq<(string, Json)>): string
    requires gates != []
  {
    if |gates| == 1 then "" else "\n" + Preimage(gates[1..])
  }

  /** The text up to the first separator. */
  function NameOf(s: string): string { if s == "" || s[0] == '=' then "" else [s[0]] + NameOf(s[1..]) }

  lemma {:induction false} NameRead(k: string, x: string)
    requires '=' !in k
    ensures NameOf(k + ("=" + x)) == k
  {
    if k != "" {
      assert (k + ("=" + x))[1..] == k[1..] + ("=" + x);
      NameRead(k[1..], x);
    }
  }

  lemma NameDecides(k: string, x: string, l: string, y: string)
    requires '=' !in k && '=' !in l && k + ("=" + x) == l + ("=" + y)
    ensures k == l && x == y
  {
    NameRead(k, x);
    NameRead(l, y);
    StripPrefix(k, "=" + x, "=" + y);
    StripPrefix("=", x, y);
  }

  lemma RestDecides(fs: seq<(string, Json)>, gs: seq<(string, Json)>)
    requires fs != [] && gs != []
    ensures Terminated(PreimageRest(fs))
    ensures PreimageRest(fs) == PreimageRest(gs) <==> (|fs| == 1 <==> |gs| == 1) && Preimage(fs[1..]) == Preimage(gs[1..])
  {
    if |fs| > 1 && |gs| > 1 && PreimageRest(fs) == PreimageRest(gs) { StripPrefix("\n", Preimage(fs[1..]), Preimage(gs[1..])); }
  }

  /** Two builds, whatever gates each lists, hash the same bytes exactly when they list the same gates in the same order
      and every value is the same up to key order. */
  lemma {:induction false} PreimageInjective(fs: seq<(string, Json)>, gs: seq<(string, Json)>)
    requires Gates(fs) && Gates(gs)
    ensures Preimage(fs) == Preimage(gs) <==> AllSameFields(fs, gs)
  {
    if fs != [] && gs != [] {
      SameText(fs[0].1, gs[0].1);
      PreimageInjective(fs[1..], gs[1..]);
      SameFieldsUnfold(fs, gs);
      RestDecides(fs, gs);
      RestDecides(gs, fs);
      var x, y := GateText(fs[0].1) + PreimageRest(fs), GateText(gs[0].1) + PreimageRest(gs);
      assert Preimage(fs) == fs[0].0 + ("=" + x) && Preimage(gs) == gs[0].0 + ("=" + y);
      if Preimage(fs) == Preimage(gs) {
        NameDecides(fs[0].0, x, gs[0].0, y);
        GateDecides(fs[0].1, gs[0].1, PreimageRest(fs), PreimageRest(gs));
      }
    }
  }

  // -------------------------------------------------------------- diffGates

  function TextOf(m: map<string, string>, k: string): string { if k in m then m[k] else ABSENT }

  /** The sorted list of the gates on which the two maps differ. */
  ghost predicate IsDiff(out: seq<string>, a: map<string, string>, b: map<string, string>) {
    && Sorted(StrLe, out)
    && forall k :: k in out <==> TextOf(a, k) != TextOf(b, k)
  }

  method DiffGates(a: map<string, string>, b: map<string, string>) returns (out: seq<string>)
    ensures IsDiff(out, a, b)
  {
    out := [];
    var todo := a.Keys + b.Keys;
    while todo != {}
      invariant todo <= a.Keys + b.Keys
      invariant forall k :: k in out <==> k !in todo && TextOf(a, k) != TextOf(b, k)
      decreases |todo|
    {
      var k :| k in todo;
      if TextOf(a, k) != TextOf(b, k) { out := out + [k]; }
      todo := todo - {k};
    }
    StrLeIsTotalOrder();
    SortSorted(StrLe, out);
    forall k ensures k in Sort(StrLe, out) <==> k in out { SortMembers(StrLe, out, k); }
    out := Sort(StrLe, out);
  }

  lemma GateReads(fs: seq<(string, Json)>, k: string)
    requires DistinctFields(fs)
    ensures TextOf(GatesOf(fs), k) == if HasKey(fs, k) then GateText(ValueAt(fs, k)) else ABSENT
  {
    GatesOfKeys(fs, k);
    if HasKey(fs, k) {
      var i :| 0 <= i < |fs| && fs[i] == (k, ValueAt(fs, k));
      GatesOfAt(fs, i);
    }
  }

  lemma NamesSome(out: seq<string>)
    requires out != []
    ensures exists k :: k in out
  {
    assert out[0] in out;
  }

  lemma NamedIsListed(fs: seq<(string, Json)>, gs: seq<(string, Json)>, out: seq<string>, k: string)
    requires IsDiff(out, GatesOf(fs), GatesOf(gs)) && k in out
    ensures HasKey(fs, k) || HasKey(gs, k)
  {
    GatesOfKeys(fs, k);
    GatesOfKeys(gs, k);
  }

  lemma SameNames(fs: seq<(string, Json)>, gs: seq<(string, Json)>)
    requires Keys(fs) == Keys(gs)
    ensures |fs| == |gs| && forall i :: 0 <= i < |fs| ==> fs[i].0 == gs[i].0
  {
    assert |fs| == |Keys(fs)| == |Keys(gs)| == |gs|;
    assert forall i :: 0 <= i < |fs| ==> fs[i].0 == Keys(fs)[i] == Keys(gs)[i] == gs[i].0;
  }

  lemma NamesWhatDiffers(fs: seq<(string, Json)>, gs: seq<(string, Json)>, out: seq<string>, i: nat)
    requires Gates(fs) && Gates(gs) && DistinctFields(fs) && DistinctFields(gs) && IsDiff(out, GatesOf(fs), GatesOf(gs))
    requires i < |fs| && i < |gs| && fs[i].0 == gs[i].0
    ensures NamedExactly(fs, gs, out, i)
  {
    GatesOfAt(fs, i);
    GatesOfAt(gs, i);
    SameText(fs[i].1, gs[i].1);
  }

  lemma SilentIsAgreement(fs: seq<(string, Json)>, gs: seq<(string, Json)>, out: seq<string>)
    requires Keys(fs) == Keys(gs) && IsDiff(out, GatesOf(fs), GatesOf(gs)) && |fs| == |gs|
    requires forall i :: 0 <= i < |fs| ==> NamedExactly(fs, gs, out, i)
    ensures out == [] <==> AllSameFields(fs, gs)
  {
    SameNames(fs, gs);
    if out == [] {
      forall i | 0 <= i < |fs| ensures fs[i].0 == gs[i].0 && Same(fs[i].1, gs[i].1) { assert NamedExactly(fs, gs, out, i); }
    } else {
      NamesSome(out);
      var k :| k in out;
      NamedIsListed(fs, gs, out, k);
      assert HasKey(fs, k) by {
        if HasKey(gs, k) {
          var j :| 0 <= j < |gs| && gs[j].0 == k;
          assert fs[j].0 == k;
        }
      }
      var i :| 0 <= i < |fs| && fs[i].0 == k;
      assert NamedExactly(fs, gs, out, i);
    }
  }

  ghost predicate NamedExactly(fs: seq<(string, Json)>, gs: seq<(string, Json)>, out: seq<string>, i: nat)
    requires i < |fs| && i < |gs|
  {
    fs[i].0 in out <==> !Same(fs[i].1, gs[i].1)
  }

  /** For builds that list the same gates in the same order diffGates names exactly the gates whose values differ. */
  lemma DiffExplainsDigest(fs: seq<(string, Json)>, gs: seq<(string, Json)>, out: seq<string>)
    requires Gates(fs) && Gates(gs) && DistinctFields(fs) && DistinctFields(gs) && IsDiff(out, GatesOf(fs), GatesOf(gs))
    requires Keys(fs) == Keys(gs)
    ensures out == [] <==> Preimage(fs) == Preimage(gs)
    ensures |fs| == |gs| && forall i :: 0 <= i < |fs| ==> NamedExactly(fs, gs, out, i)
  {
    SameNames(fs, gs);
    forall i | 0 <= i < |fs| ensures NamedExactly(fs, gs, out, i) { NamesWhatDiffers(fs, gs, out, i); }
    SilentIsAgreement(fs, gs, out);
    PreimageInjective(fs, gs);
  }

  // ------------------------------------------------------------ module state

  /** The module's cache: the digest is computed once per build. */
  class RulesModule {
    const values: seq<(string, Json)>
    const sha256: string -> string
    var cached: Option<(string, map<string, string>)>

    ghost predicate Valid()
      reads this
    {
      cached.Some? ==> cached.value == (sha256(Preimage(values)), GatesOf(values))
    }

    constructor (values: seq<(string, Json)>, sha256: string -> string)
      ensures this.values == values && this.sha256 == sha256 && Valid()
    {
      this.values, this.sha256, cached := values, sha256, None;
    }

    method ComputeConsensusRulesDigest() returns (digest: string, gates: map<string, string>)
      requires Valid()
      modifies this`cached
      ensures Valid() && cached == Some((digest, gates))
      ensures digest == sha256(Preimage(values)) && gates == GatesOf(values)
    {
      if cached.Some? { return cached.value.0, cached.value.1; }
      gates := map[];
      for i := 0 to |values|
        invariant gates == GatesOf(values[..i])
      {
        assert values[..i + 1][..i] == values[..i];
        gates := gates[values[i].0 := GateText(values[i].1)];
      }
      assert values[..|values|] == values;
      var preimage := "";
      var n := |values|;
      while n > 0
        invariant 0 <= n <= |values| && preimage == Preimage(values[n..])
      {
        n := n - 1;
        assert values[n..][1..] == values[n + 1..];
        preimage := values[n].0 + ("=" + (GateText(values[n].1) + if n == |values| - 1 then "" else "\n" + preimage));
      }
      digest := sha256(preimage);
      cached := Some((digest, gates));
    }
  }

  lemma SameFieldsKeys(fs: seq<(string, Json)>, gs: seq<(string, Json)>)
    requires AllSameFields(fs, gs)
    ensures Keys(fs) == Keys(gs)
  {
  }

  /** So, short of a collision, two builds publish one digest exactly when they list the same gates in the same order and
      diffGates over their published gates finds nothing. */
  lemma DigestsAgree(fs: seq<(string, Json)>, gs: seq<(string, Json)>, sha256: string -> string, out: seq<string>)
    requires Gates(fs) && Gates(gs) && DistinctFields(fs) && DistinctFields(gs) && IsDiff(out, GatesOf(fs), GatesOf(gs))
    requires sha256(Preimage(fs)) == sha256(Preimage(gs)) ==> Preimage(fs) == Preimage(gs)
    ensures sha256(Preimage(fs)) == sha256(Preimage(gs)) <==> Keys(fs) == Keys(gs) && out == []
    ensures Keys(fs) == Keys(gs) && out == [] <==> AllSameFields(fs, gs)
  {
    PreimageInjective(fs, gs);
    if AllSameFields(fs, gs) { SameFieldsKeys(fs, gs); }
    if Keys(fs) == Keys(gs) { DiffExplainsDigest(fs, gs, out); }
  }

  /** What diffGates cannot name: a mere reordering of the gates moves the digest while the gate list stays empty. */
  lemma OrderIsUnnamed(fs: seq<(string, Json)>, gs: seq<(string, Json)>, out: seq<string>)
    requires Gates(fs) && Gates(gs) && DistinctFields(fs) && DistinctFields(gs) && IsDiff(out, GatesOf(fs), GatesOf(gs))
    requires (forall e :: e in fs <==> e in gs) && Keys(fs) != Keys(gs)
    ensures out == [] && Preimage(fs) != Preimage(gs)
  {
    PreimageInjective(fs, gs);
    if AllSameFields(fs, gs) { SameFieldsKeys(fs, gs); }
    if out != [] {
      var k := out[0];
      assert k in out;
      GateReads(fs, k);
      GateReads(gs, k);
      if HasKey(fs, k) {
        assert (k, ValueAt(fs, k)) in gs;
        ValueAtIs(gs, (k, ValueAt(fs, k)));
      }
      if HasKey(gs, k) {
        assert (k, ValueAt(gs, k)) in fs;
        ValueAtIs(fs, (k, ValueAt(gs, k)));
      }
    }
  }
}
