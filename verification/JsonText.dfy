/** JSON values, and how JSON.stringify spells a string (RFC 8259, section 7), for strings of whole characters. */
module JsonText {
  import opened JsValues

  /** Numbers are carried by the text JSON.stringify prints for them; object fields keep their declaration order. */
  datatype Json =
    | JNull
    | JBool(b: bool)
    | JNum(text: string)
    | JStr(s: string)
    | JArr(items: seq<Json>)
    | JObj(fields: seq<(string, Json)>)

  predicate NumberChar(c: char) { '0' <= c <= '9' || c == '-' || c == '+' || c == '.' || c == 'e' }

  predicate NumberText(s: string) {
    s != "" && ('0' <= s[0] <= '9' || s[0] == '-') && forall i :: 0 <= i < |s| ==> NumberChar(s[i])
  }

  predicate DistinctFields(fields: seq<(string, Json)>) {
    forall i, j :: 0 <= i < j < |fields| ==> fields[i].0 != fields[j].0
  }

  /** Data values: finite numbers, and objects whose keys are distinct, all the way down. */
  predicate Data(v: Json) {
    match v
    case JNum(text) => NumberText(text)
    case JArr(items) => forall i :: 0 <= i < |items| ==> Data(items[i])
    case JObj(fields) => DistinctFields(fields) && forall i :: 0 <= i < |fields| ==> Data(fields[i].1)
    case _ => true
  }

  const QUOTE := '"'
  const BACKSLASH := '\\'

  function HexDigit(d: int): char
    requires 0 <= d < 16
  {
    if d < 10 then (d + '0' as int) as char else (d - 10 + 'a' as int) as char
  }

  function Escape(c: char): string {
    if c == QUOTE || c == BACKSLASH then [BACKSLASH, c]
    else if c as int == 8 then [BACKSLASH, 'b']
    else if c as int == 9 then [BACKSLASH, 't']
    else if c as int == 10 then [BACKSLASH, 'n']
    else if c as int == 12 then [BACKSLASH, 'f']
    else if c as int == 13 then [BACKSLASH, 'r']
    else if c as int < 32 then [BACKSLASH, 'u', '0', '0', HexDigit(c as int / 16), HexDigit(c as int % 16)]
    else [c]
  }

  function EscapeAll(s: string): string {
    if s == [] then [] else Escape(s[0]) + EscapeAll(s[1..])
  }

  /** JSON.stringify of a string. */
  function Quote(s: string): string { [QUOTE] + (EscapeAll(s) + [QUOTE]) }

  // ------------------------------------------------- reading a string back

  predicate IsHexDigit(c: char) { '0' <= c <= '9' || 'a' <= c <= 'f' || 'A' <= c <= 'F' }

  function HexValue(c: char): (d: int)
    requires IsHexDigit(c)
    ensures 0 <= d < 16
  {
    if '0' <= c <= '9' then c as int - '0' as int
    else if 'a' <= c <= 'f' then c as int - 'a' as int + 10
    else c as int - 'A' as int + 10
  }

  /** What a two-character escape stands for: the eight of section 7 of RFC 8259. */
  function ShortEscape(c: char): string {
    if c == '"' || c == '\\' || c == '/' then [c]
    else if c == 'b' then [8 as char]
    else if c == 'f' then [12 as char]
    else if c == 'n' then [10 as char]
    else if c == 'r' then [13 as char]
    else if c == 't' then [9 as char]
    else ""
  }

  /** One character of a JSON string at the head of text, as [c], and how much of the text spells it; "" where the
      grammar of section 7 allows none. An escape above the Basic Latin block reads as none. */
  function ReadOne(text: string): (one: (string, nat))
    ensures one.0 == "" || (|one.0| == 1 && 0 < one.1 <= |text|)
  {
    if text == "" || text[0] == '"' || text[0] as int < 32 then ("", 0)
    else if text[0] != '\\' then ([text[0]], 1)
    else if |text| >= 2 && ShortEscape(text[1]) != "" then (ShortEscape(text[1]), 2)
    else if |text| >= 6 && text[1] == 'u' && text[2] == text[3] == '0' && IsHexDigit(text[4]) && IsHexDigit(text[5]) && HexValue(text[4]) < 8 then
      ([(HexValue(text[4]) * 16 + HexValue(text[5])) as char], 6)
    else ("", 0)
  }

  /** The characters up to the closing quote, and what follows it; None where no JSON string ends. */
  function ReadChars(text: string): Option<(string, string)> {
    if text != "" && text[0] == '"' then Some(("", text[1..]))
    else
      var one := ReadOne(text);
      if one.0 == "" then None
      else
        match ReadChars(text[one.1..])
        case Some(r) => Some((one.0 + r.0, r.1))
        case None => None
  }

  /** How a character is spelled: as itself from the space on, quote and backslash apart; by a two-character escape
      where there is one; by \u00 and two lower-case hex digits otherwise. In each case a reader gets it back. */
  lemma EscapeExactly(c: char, rest: string)
    ensures ReadOne(Escape(c) + rest) == ([c], |Escape(c)|)
    ensures |Escape(c)| == if c as int >= 32 && c != '"' && c != '\\' then 1
                           else if c == '"' || c == '\\' || c as int in {8, 9, 10, 12, 13} then 2 else 6
    ensures forall i :: 0 <= i < |Escape(c)| && |Escape(c)| > 1 ==> !('A' <= Escape(c)[i] <= 'F')
  {
  }

  lemma EscapeAllTail(s: string, rest: string)
    requires s != []
    ensures EscapeAll(s) + rest == Escape(s[0]) + (EscapeAll(s[1..]) + rest)
  {
  }

  lemma {:induction false} EscapeAllReads(s: string, rest: string)
    ensures ReadChars(EscapeAll(s) + ("\"" + rest)) == Some((s, rest))
  {
    var text := EscapeAll(s) + ("\"" + rest);
    if s == "" {
      assert text[1..] == rest;
    } else {
      var more := EscapeAll(s[1..]) + ("\"" + rest);
      EscapeAllTail(s, "\"" + rest);
      EscapeExactly(s[0], more);
      EscapeAllReads(s[1..], rest);
      assert text[|Escape(s[0])|..] == more;
      assert s == [s[0]] + s[1..];
    }
  }

  /** Reading a quoted string gives it back, and whatever follows it. */
  lemma QuoteReads(s: string, rest: string)
    ensures (Quote(s) + rest)[0] == '"' && ReadChars((Quote(s) + rest)[1..]) == Some((s, rest))
  {
    assert (Quote(s) + rest)[1..] == EscapeAll(s) + ("\"" + rest);
    EscapeAllReads(s, rest);
  }

  /** So a quoted string ends where it says it ends: nothing that follows can be mistaken for part of it. */
  lemma QuoteDecides(s: string, t: string, a: string, b: string)
    requires Quote(s) + a == Quote(t) + b
    ensures s == t && a == b
  {
    QuoteReads(s, a);
    QuoteReads(t, b);
  }
}
