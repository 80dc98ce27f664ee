/** The admission map a row is signed with: one block height per chain code, and its one text
    (src/consensus/gates/mirror_admission_gate.js). */
module AdmissionMap {
  import opened Facts
  import opened JsValues
  import opened Ordering
  import opened ResponseCanonical

  const MAX_SAFE_INTEGER := 9007199254740991

  datatype Entry = Entry(code: string, height: nat)

  predicate CodeChar(c: char) { 'A' <= c <= 'Z' || '0' <= c <= '9' }

  /** /^[A-Z0-9]{1,10}$/ */
  predicate IsCode(s: string) { 1 <= |s| <= 10 && forall i :: 0 <= i < |s| ==> CodeChar(s[i]) }

  predicate Less(a: string, b: string) { StrLe(a, b) && a != b }

  function EntryText(e: Entry): string { e.code + (":" + Decimal(e.height)) }

  function Texts(entries: seq<Entry>): seq<string> {
    if entries == [] then [] else [EntryText(entries[0])] + Texts(entries[1..])
  }

  /** parts.join(',') */
  function Join(parts: seq<string>): string {
    if parts == [] then "" else if |parts| == 1 then parts[0] else parts[0] + ("," + Join(parts[1..]))
  }

  // ---------------------------------------------------------------- splitting

  /** What stands before the first c, everything if there is none. */
  function Before(s: string, c: char): (r: string)
    ensures r <= s && c !in r
    ensures |r| < |s| ==> s[|r|] == c
  {
    if s == "" || s[0] == c then "" else [s[0]] + Before(s[1..], c)
  }

  /** s.split(',') */
  function Split(s: string): (parts: seq<string>)
    ensures parts != []
    decreases |s|
  {
    var head := Before(s, ',');
    if |head| == |s| then [s] else [head] + Split(s[|head| + 1..])
  }

  lemma {:induction false} BeforeIs(a: string, c: char, rest: string)
    requires c !in a
    ensures Before(a, c) == a && Before(a + ([c] + rest), c) == a
  {
    if a == "" {
      assert a + ([c] + rest) == [c] + rest;
    } else {
      BeforeIs(a[1..], c, rest);
      assert (a + ([c] + rest))[1..] == a[1..] + ([c] + rest);
    }
  }

  lemma {:induction false} JoinSplit(s: string)
    ensures Join(Split(s)) == s
    decreases |s|
  {
    var head := Before(s, ',');
    if |head| < |s| {
      JoinSplit(s[|head| + 1..]);
      Rejoins(s, head, ',');
    }
  }

  lemma Rejoins(s: string, head: string, c: char)
    requires head <= s && |head| < |s| && s[|head|] == c
    ensures s == head + ([c] + s[|head| + 1..])
  {
  }

  lemma {:induction false} SplitJoin(parts: seq<string>)
    requires parts != [] && forall i :: 0 <= i < |parts| ==> ',' !in parts[i]
    ensures Split(Join(parts)) == parts
  {
    var s, head := Join(parts), parts[0];
    if |parts| == 1 {
      BeforeIs(head, ',', "");
    } else {
      var rest := Join(parts[1..]);
      BeforeIs(head, ',', rest);
      SplitJoin(parts[1..]);
      assert s[|head| + 1..] == rest;
    }
  }

  // ----------------------------------------------------------------- decoding

  /** One `CODE:digits`. */
  function ParseEntry(part: string): Option<Entry> {
    var code := Before(part, ':');
    if |code| == |part| then None
    else
      var digits := part[|code| + 1..];
      if IsCode(code) && IsCanonicalIntSpelling(digits) && ValueOf(digits) <= MAX_SAFE_INTEGER then Some(Entry(code, ValueOf(digits)))
      else None
  }

  function After(read: seq<Entry>, rest: Option<seq<Entry>>): Option<seq<Entry>> {
    if rest.None? then None else Some(read + rest.value)
  }

  lemma AfterOneMore(read: seq<Entry>, e: Entry, rest: Option<seq<Entry>>)
    ensures After(read, After([e], rest)) == After(read + [e], rest)
  {
    if rest.Some? { assert read + ([e] + rest.value) == (read + [e]) + rest.value; }
  }

  /** The parts read in order, each code after the one before it. */
  function ParseAll(parts: seq<string>, prev: Option<string>): Option<seq<Entry>> {
    if parts == [] then Some([])
    else
      var e := ParseEntry(parts[0]);
      if e.None? || (prev.Some? && !Less(prev.value, e.value.code)) then None
      else
        After([e.value], ParseAll(parts[1..], Some(e.value.code)))
  }

  /** The map a text decodes to, in the order of its codes; None where the source returns null. */
  function Decoded(field: string): Option<seq<Entry>> {
    if field == "" then None else ParseAll(Split(field), None)
  }

  method DecodeAdmitBlocks(field: string) returns (entries: Option<seq<Entry>>)
    ensures entries == Decoded(field)
  {
    if field == "" { return None; }
    var parts := Split(field);
    var read: seq<Entry> := [];
    var prev: Option<string> := None;
    ghost var all := ParseAll(parts, None);
    assert parts[0..] == parts && (all.Some? ==> read + all.value == all.value);
    for i := 0 to |parts|
      invariant Decoded(field) == After(read, ParseAll(parts[i..], prev))
    {
      assert parts[i..][1..] == parts[i + 1..];
      var e := ParseEntry(parts[i]);
      if e.None? { return None; }
      if prev.Some? && !Less(prev.value, e.value.code) { return None; }
      AfterOneMore(read, e.value, ParseAll(parts[i + 1..], Some(e.value.code)));
      prev := Some(e.value.code);
      read := read + [e.value];
    }
    assert parts[|parts|..] == [] && read + [] == read;
    entries := Some(read);
  }

  // ------------------------------------------------------- what a text stands for

  /** One to ten capital letters and digits. */
  predicate NamesChain(code: string) { 1 <= |code| <= 10 && forall ch :: ch in code ==> 'A' <= ch <= 'Z' || '0' <= ch <= '9' }

  lemma CodesNameChains(s: string)
    ensures IsCode(s) <==> NamesChain(s)
  {
    if NamesChain(s) {
      assert forall i :: 0 <= i < |s| ==> s[i] in s;
    }
  }

  predicate IsEntry(e: Entry) { NamesChain(e.code) && e.height <= 9007199254740991 }

  ghost predicate Ascending(entries: seq<Entry>) {
    forall i, j :: 0 <= i < j < |entries| ==> Less(entries[i].code, entries[j].code)
  }

  /** A map in the form the text spells it: some chains, in code order, with heights a double holds exactly. */
  ghost predicate IsMap(entries: seq<Entry>) {
    entries != [] && Ascending(entries) && forall i :: 0 <= i < |entries| ==> IsEntry(entries[i])
  }

  lemma NumeralReads(n: nat)
    ensures var d := Decimal(n); AllDigits(d) && IsCanonicalIntSpelling(d) && ValueOf(d) == n && ',' !in d && '|' !in d
  {
    DecimalIsCanonical(n);
  }

  lemma PartSplits(code: string, digits: string)
    requires IsCode(code)
    ensures var part := code + (":" + digits); Before(part, ':') == code && |code| < |part| && part[|code| + 1..] == digits
  {
    assert ':' !in code;
    BeforeIs(code, ':', digits);
  }

  lemma EntryReads(e: Entry)
    requires IsCode(e.code)
    ensures ParseEntry(EntryText(e)) == if e.height <= MAX_SAFE_INTEGER then Some(e) else None
  {
    NumeralReads(e.height);
    PartSplits(e.code, Decimal(e.height));
  }

  lemma EntryIsPlain(e: Entry)
    requires IsCode(e.code)
    ensures ',' !in EntryText(e) && '|' !in EntryText(e) && EntryText(e) != ""
  {
    NumeralReads(e.height);
  }

  lemma ParsedIsText(part: string)
    ensures ParseEntry(part).Some? ==> IsEntry(ParseEntry(part).value) && part == EntryText(ParseEntry(part).value)
  {
    if ParseEntry(part).Some? {
      var code := Before(part, ':');
      var digits := part[|code| + 1..];
      CodesNameChains(code);
      SpelledByValue(digits);
      Rejoins(part, code, ':');
    }
  }

  lemma LessTransitive(a: string, b: string, c: string)
    requires Less(a, b) && Less(b, c)
    ensures Less(a, c)
  {
    StrLeTransitive(a, b, c);
    StrLeTotal(a, b);
  }

  /** prev stands before every code. */
  ghost predicate Follows(prev: Option<string>, entries: seq<Entry>) {
    prev.Some? ==> forall i :: 0 <= i < |entries| ==> Less(prev.value, entries[i].code)
  }

  ghost predicate Reads(parts: seq<string>, prev: Option<string>, entries: seq<Entry>) {
    parts == Texts(entries) && Ascending(entries) && Follows(prev, entries) && forall i :: 0 <= i < |entries| ==> IsEntry(entries[i])
  }

  lemma PartReads(part: string, e: Entry)
    ensures ParseEntry(part) == Some(e) <==> IsEntry(e) && part == EntryText(e)
  {
    CodesNameChains(e.code);
    ParsedIsText(part);
    if IsEntry(e) { EntryReads(e); }
  }

  lemma ReadsStep(parts: seq<string>, prev: Option<string>, entries: seq<Entry>)
    requires parts != [] && entries != []
    ensures var first := entries[0];
            Reads(parts, prev, entries) <==>
            parts[0] == EntryText(first) && IsEntry(first) && (prev.Some? ==> Less(prev.value, first.code))
            && Reads(parts[1..], Some(first.code), entries[1..])
  {
    var first, rest := entries[0], entries[1..];
    assert parts == [parts[0]] + parts[1..] && Texts(entries) == [EntryText(first)] + Texts(rest);
    assert forall i :: 0 <= i < |rest| ==> rest[i] == entries[i + 1];
    if Reads(parts[1..], Some(first.code), rest) && (prev.Some? ==> Less(prev.value, first.code)) { AscendingFrom(prev, entries); }
  }

  lemma {:induction false} ParseAllExactly(parts: seq<string>, prev: Option<string>, entries: seq<Entry>)
    ensures ParseAll(parts, prev) == Some(entries) <==> Reads(parts, prev, entries)
  {
    if parts != [] && entries != [] {
      var first, rest := entries[0], entries[1..];
      ParseAllExactly(parts[1..], Some(first.code), rest);
      PartReads(parts[0], first);
      ReadsStep(parts, prev, entries);
      assert entries == [first] + rest;
    }
  }

  lemma AscendingFrom(prev: Option<string>, entries: seq<Entry>)
    requires entries != [] && Ascending(entries[1..]) && Follows(Some(entries[0].code), entries[1..])
    requires prev.Some? ==> Less(prev.value, entries[0].code)
    ensures Ascending(entries) && Follows(prev, entries)
  {
    var first, rest := entries[0], entries[1..];
    assert forall i :: 1 <= i < |entries| ==> entries[i] == rest[i - 1];
    if prev.Some? {
      forall i | 1 <= i < |entries| ensures Less(prev.value, entries[i].code) {
        LessTransitive(prev.value, first.code, entries[i].code);
      }
    }
  }

  lemma {:induction false} TextsOfCodes(entries: seq<Entry>)
    requires forall i :: 0 <= i < |entries| ==> IsCode(entries[i].code)
    ensures |Texts(entries)| == |entries|
    ensures forall i :: 0 <= i < |Texts(entries)| ==> ',' !in Texts(entries)[i] && '|' !in Texts(entries)[i] && Texts(entries)[i] != ""
  {
    if entries != [] {
      EntryIsPlain(entries[0]);
      TextsOfCodes(entries[1..]);
    }
  }

  lemma CodesOf(entries: seq<Entry>)
    requires forall i :: 0 <= i < |entries| ==> IsEntry(entries[i])
    ensures forall i :: 0 <= i < |entries| ==> IsCode(entries[i].code)
  {
    forall i | 0 <= i < |entries| ensures IsCode(entries[i].code) { CodesNameChains(entries[i].code); }
  }

  /** A text is accepted as a map exactly when it is that map's text. */
  lemma DecodesExactly(field: string, entries: seq<Entry>)
    ensures Decoded(field) == Some(entries) <==> IsMap(entries) && field == Join(Texts(entries))
  {
    ParseAllExactly(Split(field), None, entries);
    JoinSplit(field);
    if IsMap(entries) {
      CodesOf(entries);
      TextsOfCodes(entries);
      SplitJoin(Texts(entries));
      assert Texts(entries)[0] != "";
    }
  }

  lemma {:induction false} JoinHasNo(parts: seq<string>, c: char)
    requires c != ',' && forall i :: 0 <= i < |parts| ==> c !in parts[i]
    ensures c !in Join(parts)
  {
    if |parts| > 1 { JoinHasNo(parts[1..], c); }
  }

  /** A map's text holds no bar, so it can stand after one in a canonical. */
  lemma DecodedHasNoBar(field: string)
    requires Decoded(field).Some?
    ensures field != "" && '|' !in field
  {
    var entries := Decoded(field).value;
    DecodesExactly(field, entries);
    CodesOf(entries);
    TextsOfCodes(entries);
    JoinHasNo(Texts(entries), '|');
  }

  // ----------------------------------------------------------------- encoding

  /** A height as an object holds it: a number, a text, or anything else. */
  datatype Height = Number(n: Num) | Text(s: string) | Other

  /** An object's fields, in any order. */
  type AdmitBlocks = seq<(string, Height)>

  predicate DistinctCodes(m: AdmitBlocks) { forall i, j :: 0 <= i < j < |m| ==> m[i].0 != m[j].0 }

  function Codes(m: AdmitBlocks): seq<string> { seq(|m|, i requires 0 <= i < |m| => m[i].0) }

  function At(m: AdmitBlocks, code: string): (h: Height)
    requires code in Codes(m)
    ensures (code, h) in m
  {
    if m[0].0 == code then m[0].1 else assert Codes(m)[1..] == Codes(m[1..]); At(m[1..], code)
  }

  /** String(v) of a safe integer, or the text itself, where that is a canonical numeral. */
  function Spelling(h: Height): Option<string> {
    match h
    case Number(n) =>
      if IsInteger(n) && 0.0 <= n.value <= MAX_SAFE_INTEGER as real then Some(Decimal(n.value.Floor)) else None
    case Text(s) => if IsCanonicalIntSpelling(s) then Some(s) else None
    case Other => None
  }

  /** h stands for the height n: the number itself, if a double holds it exactly, or its decimal text. */
  predicate Means(h: Height, n: nat) { (h == Number(Fin(n as real)) && n <= 9007199254740991) || h == Text(Decimal(n)) }

  lemma SpellingExactly(h: Height)
    ensures Spelling(h).Some? <==> exists n: nat :: Means(h, n)
    ensures forall n: nat :: Means(h, n) ==> Spelling(h) == Some(Decimal(n))
    ensures Spelling(h).Some? ==> AllDigits(Spelling(h).value) && Means(h, ValueOf(Spelling(h).value))
                                  && Spelling(h).value == Decimal(ValueOf(Spelling(h).value))
  {
    forall n: nat | Means(h, n) ensures Spelling(h) == Some(Decimal(n)) { NumeralReads(n); }
    if Spelling(h).Some? {
      if h.Number? { NumeralReads(h.n.value.Floor); }
      SpelledByValue(Spelling(h).value);
      assert Means(h, ValueOf(Spelling(h).value));
    }
  }

  ghost predicate Holds(m: AdmitBlocks, e: Entry) { exists h :: (e.code, h) in m && Means(h, e.height) }

  /** The object's contents in code order. */
  ghost predicate IsContents(entries: seq<Entry>, m: AdmitBlocks) {
    Ascending(entries) && forall e :: e in entries <==> Holds(m, e)
  }

  ghost predicate Spellable(m: AdmitBlocks) {
    m != [] && forall f :: f in m ==> NamesChain(f.0) && exists n: nat :: Means(f.1, n)
  }

  ghost predicate EncodesTo(m: AdmitBlocks, field: string) {
    Spellable(m) && exists entries :: IsContents(entries, m) && field == Join(Texts(entries))
  }

  /** The object's codes in order. */
  ghost predicate AreCodes(codes: seq<string>, m: AdmitBlocks) {
    && (forall i, j :: 0 <= i < j < |codes| ==> Less(codes[i], codes[j]))
    && forall c :: c in codes <==> c in Codes(m)
  }

  /** The first codes' entries, as the object holds them. */
  ghost predicate Listed(m: AdmitBlocks, codes: seq<string>, entries: seq<Entry>) {
    |entries| <= |codes| && forall k :: 0 <= k < |entries| ==> entries[k].code == codes[k] && IsCode(codes[k]) && Holds(m, entries[k])
  }

  /** None where the source throws. */
  method EncodeAdmitBlocks(m: AdmitBlocks) returns (field: Option<string>)
    requires DistinctCodes(m)
    ensures field.Some? <==> Spellable(m)
    ensures field.Some? ==> EncodesTo(m, field.value)
  {
    if m == [] { return None; }
    var codes := Sort(StrLe, Codes(m));
    SortedCodes(m);
    var parts: seq<string> := [];
    ghost var entries: seq<Entry> := [];
    for i := 0 to |codes|
      invariant |entries| == i && parts == Texts(entries) && Listed(m, codes, entries)
    {
      assert codes[i] in codes;
      var v := At(m, codes[i]);
      var s := Spelling(v);
      if !IsCode(codes[i]) || s.None? {
        NotSpellable(m, codes[i], v);
        return None;
      }
      entries := ListOneMore(m, codes, entries, v);
      parts := parts + [codes[i] + (":" + s.value)];
    }
    AllListed(m, codes, entries);
    field := Some(Join(parts));
  }

  lemma NotSpellable(m: AdmitBlocks, code: string, v: Height)
    requires (code, v) in m && (!IsCode(code) || Spelling(v).None?)
    ensures !Spellable(m)
  {
    SpellingExactly(v);
    CodesNameChains(code);
  }

  lemma ListOneMore(m: AdmitBlocks, codes: seq<string>, entries: seq<Entry>, v: Height) returns (more: seq<Entry>)
    requires Listed(m, codes, entries) && |entries| < |codes|
    requires var code := codes[|entries|]; IsCode(code) && (code, v) in m && Spelling(v).Some?
    ensures Listed(m, codes, more) && |more| == |entries| + 1
    ensures Texts(more) == Texts(entries) + [codes[|entries|] + (":" + Spelling(v).value)]
  {
    SpellingExactly(v);
    var e := Entry(codes[|entries|], ValueOf(Spelling(v).value));
    assert Holds(m, e);
    TextsAppend(entries, e);
    more := entries + [e];
  }

  lemma SortedCodes(m: AdmitBlocks)
    requires DistinctCodes(m)
    ensures AreCodes(Sort(StrLe, Codes(m)), m)
  {
    StrLeIsTotalOrder();
    SortSorted(StrLe, Codes(m));
    SortKeepsDistinct(StrLe, Codes(m));
    forall c ensures c in Sort(StrLe, Codes(m)) <==> c in Codes(m) { SortMembers(StrLe, Codes(m), c); }
  }

  lemma {:induction false} TextsAppend(entries: seq<Entry>, e: Entry)
    ensures Texts(entries + [e]) == Texts(entries) + [EntryText(e)]
  {
    if entries != [] {
      TextsAppend(entries[1..], e);
      assert (entries + [e])[1..] == entries[1..] + [e];
    }
  }

  lemma OneMeaning(h: Height, n: nat, k: nat)
    requires Means(h, n) && Means(h, k)
    ensures n == k
  {
    NumeralReads(n);
    NumeralReads(k);
  }

  lemma OneField(m: AdmitBlocks, code: string, g: Height, h: Height)
    requires DistinctCodes(m) && (code, g) in m && (code, h) in m
    ensures g == h
  {
    var i :| 0 <= i < |m| && m[i] == (code, g);
    var j :| 0 <= j < |m| && m[j] == (code, h);
  }

  lemma OneHeight(m: AdmitBlocks, e: Entry, f: Entry)
    requires DistinctCodes(m) && Holds(m, e) && Holds(m, f) && e.code == f.code
    ensures e == f
  {
    var g :| (e.code, g) in m && Means(g, e.height);
    var h :| (f.code, h) in m && Means(h, f.height);
    OneField(m, e.code, g, h);
    OneMeaning(g, e.height, f.height);
  }

  lemma AllListed(m: AdmitBlocks, codes: seq<string>, entries: seq<Entry>)
    requires DistinctCodes(m) && m != [] && |entries| == |codes| && Listed(m, codes, entries)
    requires AreCodes(codes, m)
    ensures Spellable(m) && IsContents(entries, m)
  {
    forall f | f in m ensures NamesChain(f.0) && exists n: nat :: Means(f.1, n) {
      CodesNameChains(f.0);
      var i :| 0 <= i < |m| && m[i] == f;
      assert Codes(m)[i] == f.0 && f.0 in Codes(m) && f.0 in codes;
      var k :| 0 <= k < |codes| && codes[k] == f.0;
      var h :| (entries[k].code, h) in m && Means(h, entries[k].height);
      var j :| 0 <= j < |m| && m[j] == (entries[k].code, h);
      assert h == f.1;
    }
    forall e ensures e in entries <==> Holds(m, e) {
      if Holds(m, e) {
        var h :| (e.code, h) in m && Means(h, e.height);
        var i :| 0 <= i < |m| && m[i] == (e.code, h);
        assert Codes(m)[i] == e.code && e.code in Codes(m) && e.code in codes;
        var k :| 0 <= k < |codes| && codes[k] == e.code;
        OneHeight(m, e, entries[k]);
      }
    }
  }

  // ------------------------------------------------------------- one map, one text

  lemma LessOneWay(a: string, b: string)
    requires Less(a, b)
    ensures !Less(b, a)
  {
    StrLeTotal(a, b);
  }

  lemma FirstIsLeast(a: seq<Entry>, b: seq<Entry>)
    requires Ascending(a) && Ascending(b) && a != [] && b != [] && a[0] in b && b[0] in a
    ensures a[0] == b[0]
  {
    var i :| 0 <= i < |a| && a[i] == b[0];
    var j :| 0 <= j < |b| && b[j] == a[0];
    if i > 0 && j > 0 { LessOneWay(a[0].code, a[i].code); }
  }

  lemma NonEmpty(s: seq<Entry>)
    ensures s != [] ==> exists e :: e in s
  {
    if s != [] { assert s[0] in s; }
  }

  lemma {:induction false} AscendingUnique(a: seq<Entry>, b: seq<Entry>)
    requires Ascending(a) && Ascending(b) && forall e :: e in a <==> e in b
    ensures a == b
  {
    NonEmpty(a);
    NonEmpty(b);
    if a != [] && b != [] {
      FirstIsLeast(a, b);
      assert forall e :: e in a[1..] <==> e in a && e != a[0];
      assert forall e :: e in b[1..] <==> e in b && e != b[0];
      AscendingUnique(a[1..], b[1..]);
      assert a == [a[0]] + a[1..] && b == [b[0]] + b[1..];
    }
  }

  lemma EntryTextInjective(e: Entry, f: Entry)
    requires IsCode(e.code) && IsCode(f.code) && EntryText(e) == EntryText(f)
    ensures e == f
  {
    PartSplits(e.code, Decimal(e.height));
    PartSplits(f.code, Decimal(f.height));
    NumeralReads(e.height);
    NumeralReads(f.height);
  }

  lemma {:induction false} TextsInjective(a: seq<Entry>, b: seq<Entry>)
    requires (forall i :: 0 <= i < |a| ==> IsCode(a[i].code)) && (forall i :: 0 <= i < |b| ==> IsCode(b[i].code))
    requires Texts(a) == Texts(b)
    ensures a == b
  {
    if a != [] && b != [] {
      assert Texts(a)[0] == EntryText(a[0]) && Texts(b)[0] == EntryText(b[0]);
      EntryTextInjective(a[0], b[0]);
      assert Texts(a)[1..] == Texts(a[1..]) && Texts(b)[1..] == Texts(b[1..]);
      TextsInjective(a[1..], b[1..]);
      assert a == [a[0]] + a[1..] && b == [b[0]] + b[1..];
    }
  }

  lemma JoinedInjective(a: seq<Entry>, b: seq<Entry>)
    requires a != [] && b != [] && Join(Texts(a)) == Join(Texts(b))
    requires (forall i :: 0 <= i < |a| ==> IsCode(a[i].code)) && (forall i :: 0 <= i < |b| ==> IsCode(b[i].code))
    ensures a == b
  {
    TextsOfCodes(a);
    TextsOfCodes(b);
    SplitJoin(Texts(a));
    SplitJoin(Texts(b));
    TextsInjective(a, b);
  }

  lemma ContentsOf(m: AdmitBlocks, entries: seq<Entry>)
    requires Spellable(m) && IsContents(entries, m)
    ensures entries != [] && forall i :: 0 <= i < |entries| ==> IsCode(entries[i].code)
  {
    var f := m[0];
    var n: nat :| Means(f.1, n);
    assert Holds(m, Entry(f.0, n));
    forall i | 0 <= i < |entries| ensures IsCode(entries[i].code) {
      assert entries[i] in entries;
      CodesNameChains(entries[i].code);
      var h :| (entries[i].code, h) in m && Means(h, entries[i].height);
    }
  }

  /** Two objects have one text exactly when they hold the same heights, whatever the order of their keys and whether a
      height is a number or a text. */
  lemma OneMapOneText(m: AdmitBlocks, n: AdmitBlocks, field: string, other: string)
    requires EncodesTo(m, field) && EncodesTo(n, other)
    ensures field == other <==> forall e :: Holds(m, e) <==> Holds(n, e)
  {
    var a: seq<Entry> :| IsContents(a, m) && field == Join(Texts(a));
    var b: seq<Entry> :| IsContents(b, n) && other == Join(Texts(b));
    ContentsOf(m, a);
    ContentsOf(n, b);
    if field == other { JoinedInjective(a, b); }
    if forall e :: Holds(m, e) <==> Holds(n, e) { AscendingUnique(a, b); }
  }

  /** The text of an object is read back, to exactly what the object holds, if and only if no height is above the largest
      safe integer: a longer numeral held as a text is encoded, and then refused. */
  lemma ReadsBackExactly(m: AdmitBlocks, field: string)
    requires EncodesTo(m, field)
    ensures Decoded(field).Some? <==> forall e :: Holds(m, e) ==> e.height <= 9007199254740991
    ensures Decoded(field).Some? ==> forall e :: e in Decoded(field).value <==> Holds(m, e)
  {
    var a: seq<Entry> :| IsContents(a, m) && field == Join(Texts(a));
    ContentsOf(m, a);
    if forall e :: Holds(m, e) ==> e.height <= 9007199254740991 {
      forall i | 0 <= i < |a| ensures IsEntry(a[i]) {
        assert a[i] in a;
        CodesNameChains(a[i].code);
      }
      DecodesExactly(field, a);
    }
    if Decoded(field).Some? {
      var b := Decoded(field).value;
      DecodesExactly(field, b);
      CodesOf(b);
      JoinedInjective(a, b);
    }
  }

  /** Such objects exist, for every code. */
  lemma LongHeightIsRefused(code: string, n: nat)
    requires NamesChain(code) && n > 9007199254740991
    ensures exists field :: EncodesTo([(code, Text(Decimal(n)))], field) && Decoded(field).None?
  {
    var m := [(code, Text(Decimal(n)))];
    var e := Entry(code, n);
    var field := Join(Texts([e]));
    assert Means(m[0].1, n) && Holds(m, e);
    forall f ensures f in [e] <==> Holds(m, f) {
      if Holds(m, f) { OneHeight(m, e, f); }
    }
    assert IsContents([e], m) && EncodesTo(m, field);
    ReadsBackExactly(m, field);
  }
}
