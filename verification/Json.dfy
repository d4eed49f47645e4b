/** Nested Python data made of None, bool, int, str, list and str-keyed dict, and its JSON text. */
module Json {
  import opened Text

  datatype Value =
    | Null
    | Bool(b: bool)
    | Int(n: int)
    | Str(s: string)
    | List(items: seq<Value>)
    | Dict(entries: seq<Entry>)  // in insertion order

  datatype Entry = Entry(key: string, val: Value)

  /** A dict holds each key once, at every level. */
  predicate WellFormed(v: Value) {
    match v
    case List(items) => forall x :: x in items ==> WellFormed(x)
    case Dict(entries) =>
      && DistinctKeys(entries)
      && forall e :: e in entries ==> WellFormed(e.val)
    case _ => true
  }

  predicate DistinctKeys(entries: seq<Entry>) {
    forall i, j :: 0 <= i < j < |entries| ==> entries[i].key != entries[j].key
  }

  // ----- JSON text, as json.dumps writes it with its default settings -----

  function Dumps(v: Value): (s: string)
    ensures s != ""
    decreases v, 1
  {
    match v
    case Null => "null"
    case Bool(b) => if b then "true" else "false"
    case Int(n) => if n < 0 then "-" + Decimal(-n) else Decimal(n)
    case Str(s) => Quote(s)
    case List(items) =>
      if items == [] then "[]" else "[" + Dumps(items[0]) + DumpsItems(items[1..])
    case Dict(entries) =>
      if entries == [] then "{}" else "{" + DumpsEntry(entries[0]) + DumpsEntries(entries[1..])
  }

  /** The items after the first, up to the closing bracket. */
  function DumpsItems(items: seq<Value>): (s: string)
    ensures Stops(s) && s != ""
    decreases items, 0
  {
    if items == [] then "]" else ", " + Dumps(items[0]) + DumpsItems(items[1..])
  }

  function DumpsEntry(e: Entry): (s: string)
    ensures s != "" && s[0] == '"'
    decreases e, 0
  {
    Quote(e.key) + ": " + Dumps(e.val)
  }

  function DumpsEntries(entries: seq<Entry>): (s: string)
    ensures Stops(s) && s != ""
    decreases entries, 0
  {
    if entries == [] then "}" else ", " + DumpsEntry(entries[0]) + DumpsEntries(entries[1..])
  }

  function Quote(s: string): (q: string)
    ensures q != "" && q[0] == '"'
  {
    "\"" + Escape(s) + "\""
  }

  function Escape(s: string): string {
    if s == "" then "" else EscapeChar(s[0]) + Escape(s[1..])
  }

  /** Section 7 of RFC 8259; everything outside printable ASCII is written as \u escapes,
      characters beyond the basic plane as a surrogate pair. */
  function EscapeChar(c: char): (s: string)
    ensures s != "" && s[0] != '"'
  {
    if c == '\"' then "\\\""
    else if c == '\\' then "\\\\"
    else if c == '\n' then "\\n"
    else if c == '\r' then "\\r"
    else if c == '\t' then "\\t"
    else if c == 12 as char then "\\f"
    else if c == 8 as char then "\\b"
    else if ' ' <= c <= '~' then [c]
    else if c as int < 0x10000 then "\\u" + Hex4(c as int)
    else
      var n := c as int - 0x10000;
      "\\u" + Hex4(0xd800 + n / 0x400) + "\\u" + Hex4(0xdc00 + n % 0x400)
  }

  function Hex4(n: nat): (s: string)
    requires n < 0x10000
    ensures |s| == 4
  {
    [HexDigit(n / 0x1000), HexDigit(n / 0x100 % 16), HexDigit(n / 16 % 16), HexDigit(n % 16)]
  }

  function HexDigit(d: nat): char
    requires d < 16
  {
    if d < 10 then ('0' as int + d) as char else ('a' as int + d - 10) as char
  }

  // ----- The text in plain terms -----

  /** Lists and dicts are joined with commas. */
  lemma {:induction false} ListIsJoined(items: seq<Value>, texts: seq<string>)
    requires |texts| == |items| && forall i :: 0 <= i < |items| ==> texts[i] == Dumps(items[i])
    ensures Dumps(List(items)) == "[" + JoinBy(", ", texts) + "]"
  {
    if items != [] {
      ItemsAreJoined(items[1..], texts[1..]);
    }
  }

  lemma {:induction false} ItemsAreJoined(items: seq<Value>, texts: seq<string>)
    requires |texts| == |items| && forall i :: 0 <= i < |items| ==> texts[i] == Dumps(items[i])
    ensures DumpsItems(items) == (if items == [] then "" else ", " + JoinBy(", ", texts)) + "]"
  {
    if items != [] {
      ItemsAreJoined(items[1..], texts[1..]);
    }
  }

  lemma {:induction false} DictIsJoined(entries: seq<Entry>, texts: seq<string>)
    requires |texts| == |entries|
    requires forall i :: 0 <= i < |entries| ==> texts[i] == Dumps(Str(entries[i].key)) + ": " + Dumps(entries[i].val)
    ensures Dumps(Dict(entries)) == "{" + JoinBy(", ", texts) + "}"
  {
    if entries != [] {
      EntriesAreJoined(entries[1..], texts[1..]);
    }
  }

  lemma {:induction false} EntriesAreJoined(entries: seq<Entry>, texts: seq<string>)
    requires |texts| == |entries|
    requires forall i :: 0 <= i < |entries| ==> texts[i] == Dumps(Str(entries[i].key)) + ": " + Dumps(entries[i].val)
    ensures DumpsEntries(entries) == (if entries == [] then "" else ", " + JoinBy(", ", texts)) + "}"
  {
    if entries != [] {
      EntriesAreJoined(entries[1..], texts[1..]);
    }
  }

  lemma LeafTexts(n: nat)
    ensures Dumps(Null) == "null" && Dumps(Bool(true)) == "true" && Dumps(Bool(false)) == "false"
    ensures Dumps(Int(n)) == Decimal(n)
    ensures forall m: int :: m < 0 ==> Dumps(Int(m)) == "-" + Decimal(-m)
  {
  }

  /** A string is written character by character, in quotes. */
  lemma StringTexts(s: string, c: char)
    ensures Dumps(Str("")) == "\"\""
    ensures Dumps(Str([c] + s)) == "\"" + (EscapeChar(c) + Dumps(Str(s))[1..])
  {
    assert Escape("") == "";
    assert ([c] + s)[0] == c && ([c] + s)[1..] == s;
    Associative("\"", EscapeChar(c) + Escape(s), "\"");
    Associative(EscapeChar(c), Escape(s), "\"");
    assert Dumps(Str(s))[1..] == Escape(s) + "\"";
  }

  /** Printable ASCII stands for itself, but for the quote and the backslash. */
  lemma CharTexts(c: char)
    ensures ' ' <= c <= '~' && c != '"' && c != '\\' ==> EscapeChar(c) == [c]
    ensures EscapeChar('"') == "\\\"" && EscapeChar('\\') == "\\\\" && EscapeChar('\n') == "\\n"
    ensures EscapeChar('\r') == "\\r" && EscapeChar('\t') == "\\t"
    ensures EscapeChar('\U{8}') == "\\b" && EscapeChar('\U{C}') == "\\f"
  {
  }

  /** Every other character is written by its number in hexadecimal, in two parts beyond the basic plane. */
  lemma NumberTexts(c: char)
    ensures NeedsUnicodeEscape(c) && c as int < 0x10000 ==> EscapeChar(c) == "\\u" + Hex4(c as int)
    ensures EscapeChar('\U{1F600}') == "\\u" + Hex4(0xd83d) + "\\u" + Hex4(0xde00)
  {
  }

  lemma HexDigitTexts(d: nat)
    requires d < 16
    ensures HexDigit(d) == "0123456789abcdef"[d]
  {
    assert HexDigit(d) as int == "0123456789abcdef"[d] as int;
  }

  /** Four hexadecimal digits, the highest first. */
  lemma HexTexts(a: nat, b: nat, c: nat, d: nat)
    requires a < 16 && b < 16 && c < 16 && d < 16
    ensures Hex4(4096 * a + 256 * b + 16 * c + d) == [HexDigit(a), HexDigit(b), HexDigit(c), HexDigit(d)]
  {
    HexDigits(a, b, c, d);
  }

  lemma HexDigits(a: nat, b: nat, c: nat, d: nat)
    requires a < 16 && b < 16 && c < 16 && d < 16
    ensures var n := 4096 * a + 256 * b + 16 * c + d;
            n / 0x1000 == a && n / 0x100 % 16 == b && n / 16 % 16 == c && n % 16 == d
  {
    var n := 4096 * a + 256 * b + 16 * c + d;
    assert n / 4096 == a && n / 256 == 16 * a + b && n / 16 == 256 * a + 16 * b + c;
  }

  // ----- The text determines the value -----

  /** What can follow a complete JSON value inside a list or a dict. */
  predicate Stops(s: string) {
    s == "" || s[0] == ',' || s[0] == ']' || s[0] == '}'
  }

  lemma Cancel(p: string, s: string, t: string)
    requires p + s == p + t
    ensures s == t
  {
    assert s == (p + s)[|p|..] == (p + t)[|p|..] == t;
  }

  lemma Regroup(p: string, q: string, r: string, s: string)
    ensures p + q + r + s == p + (q + (r + s))
  {
  }

  lemma FirstChar(p: string, s: string)
    requires s != ""
    ensures (p + s)[0] == if p == "" then s[0] else p[0]
  {
  }

  function HexValue(c: char): int {
    if '0' <= c <= '9' then c as int - '0' as int else c as int - 'a' as int + 10
  }

  lemma Hex4Value(n: nat)
    requires n < 0x10000
    ensures var s := Hex4(n);
      HexValue(s[0]) * 0x1000 + HexValue(s[1]) * 0x100 + HexValue(s[2]) * 16 + HexValue(s[3]) == n
  {
    var a, b, c := n / 16, n / 0x100, n / 0x1000;
    assert a / 16 == b && b / 16 == c;
    assert n == a * 16 + n % 16 && a == b * 16 + a % 16 && b == c * 16 + b % 16;
  }

  lemma Hex4Injective(n: nat, m: nat)
    requires n < 0x10000 && m < 0x10000 && Hex4(n) == Hex4(m)
    ensures n == m
  {
    Hex4Value(n);
    Hex4Value(m);
  }

  /** The first 16-bit unit written for a character that is written as a \u escape. */
  function FirstUnit(c: char): (n: nat)
    ensures n < 0x10000
  {
    if c as int < 0x10000 then c as int else 0xd800 + (c as int - 0x10000) / 0x400
  }

  predicate NeedsUnicodeEscape(c: char) {
    && !(' ' <= c <= '~')
    && c != '\n' && c != '\r' && c != '\t' && c != 12 as char && c != 8 as char
  }

  lemma UnicodeEscapeStart(c: char, u: string)
    requires NeedsUnicodeEscape(c)
    ensures |EscapeChar(c) + u| >= 6
    ensures (EscapeChar(c) + u)[0] == '\\' && (EscapeChar(c) + u)[1] == 'u'
    ensures (EscapeChar(c) + u)[2..6] == Hex4(FirstUnit(c))
  {
  }

  lemma UnicodeEscapeUnique(c: char, d: char, u: string, v: string)
    requires NeedsUnicodeEscape(c) && NeedsUnicodeEscape(d)
    requires EscapeChar(c) + u == EscapeChar(d) + v
    ensures c == d
  {
    UnicodeEscapeStart(c, u);
    UnicodeEscapeStart(d, v);
    Hex4Injective(FirstUnit(c), FirstUnit(d));
    if c as int >= 0x10000 && d as int >= 0x10000 {
      var n, m := c as int - 0x10000, d as int - 0x10000;
      assert (EscapeChar(c) + u)[8..12] == Hex4(0xdc00 + n % 0x400);
      assert (EscapeChar(d) + v)[8..12] == Hex4(0xdc00 + m % 0x400);
      Hex4Injective(0xdc00 + n % 0x400, 0xdc00 + m % 0x400);
      assert n == n / 0x400 * 0x400 + n % 0x400;
      assert m == m / 0x400 * 0x400 + m % 0x400;
    }
  }

  lemma EscapeCharUnique(c: char, d: char, u: string, v: string)
    requires EscapeChar(c) + u == EscapeChar(d) + v
    ensures c == d && u == v
  {
    assert (EscapeChar(c) + u)[0] == EscapeChar(c)[0];
    assert (EscapeChar(d) + v)[0] == EscapeChar(d)[0];
    if |EscapeChar(c)| > 1 && |EscapeChar(d)| > 1 {
      assert (EscapeChar(c) + u)[1] == EscapeChar(c)[1];
      assert (EscapeChar(d) + v)[1] == EscapeChar(d)[1];
    }
    if NeedsUnicodeEscape(c) && NeedsUnicodeEscape(d) {
      UnicodeEscapeUnique(c, d, u, v);
    }
    Cancel(EscapeChar(c), u, v);
  }

  lemma EscapeStart(t: string)
    ensures t != "" ==> Escape(t) != "" && Escape(t)[0] != '"'
  {
    if t != "" {
      assert Escape(t)[0] == EscapeChar(t[0])[0];
    }
  }

  lemma Associative(p: string, q: string, r: string)
    ensures (p + q) + r == p + (q + r)
  {
  }

  lemma EscapeText(s: string, u: string)
    requires s != ""
    ensures Escape(s) + "\"" + u == EscapeChar(s[0]) + (Escape(s[1..]) + "\"" + u)
  {
    Associative(EscapeChar(s[0]) + Escape(s[1..]), "\"", u);
    Associative(EscapeChar(s[0]), Escape(s[1..]), "\"" + u);
    Associative(Escape(s[1..]), "\"", u);
  }

  lemma EmptyEscapeUnique(t: string, u: string, v: string)
    requires "\"" + u == Escape(t) + "\"" + v
    ensures t == ""
  {
    EscapeStart(t);
    assert Escape(t) + "\"" + v == Escape(t) + ("\"" + v);
    FirstChar(Escape(t), "\"" + v);
  }

  lemma {:induction false} QuotedUnique(s: string, t: string, u: string, v: string)
    requires Escape(s) + "\"" + u == Escape(t) + "\"" + v
    ensures s == t && u == v
  {
    if s == "" {
      assert Escape(s) + "\"" + u == "\"" + u;
      EmptyEscapeUnique(t, u, v);
      assert Escape(t) + "\"" + v == "\"" + v;
      Cancel("\"", u, v);
    } else {
      if t == "" {
        assert Escape(t) + "\"" + v == "\"" + v;
        EmptyEscapeUnique(s, v, u);
      }
      EscapeText(s, u);
      EscapeText(t, v);
      EscapeCharUnique(s[0], t[0], Escape(s[1..]) + "\"" + u, Escape(t[1..]) + "\"" + v);
      QuotedUnique(s[1..], t[1..], u, v);
      assert s == [s[0]] + s[1..] && t == [t[0]] + t[1..];
    }
  }

  lemma QuoteText(s: string, u: string)
    ensures Quote(s) + u == "\"" + (Escape(s) + "\"" + u)
  {
    Associative("\"", Escape(s), "\"");
    Associative("\"", Escape(s) + "\"", u);
  }

  lemma QuoteUnique(s: string, t: string, u: string, v: string)
    requires Quote(s) + u == Quote(t) + v
    ensures s == t && u == v
  {
    QuoteText(s, u);
    QuoteText(t, v);
    Cancel("\"", Escape(s) + "\"" + u, Escape(t) + "\"" + v);
    QuotedUnique(s, t, u, v);
  }

  /** Which of the seven forms a value's text starts with. */
  function FormOf(c: char): nat {
    if c == 'n' then 0
    else if c == 't' || c == 'f' then 1
    else if c == '-' || IsDigit(c) then 2
    else if c == '"' then 3
    else if c == '[' then 4
    else if c == '{' then 5
    else 6
  }

  function Form(v: Value): nat {
    match v
    case Null => 0
    case Bool(_) => 1
    case Int(_) => 2
    case Str(_) => 3
    case List(_) => 4
    case Dict(_) => 5
  }

  lemma DumpsForm(v: Value)
    ensures FormOf(Dumps(v)[0]) == Form(v)
  {
  }

  lemma NegativeUnique(n: nat, m: nat, s: string, t: string)
    requires "-" + Decimal(n) + s == "-" + Decimal(m) + t
    requires Stops(s) && Stops(t)
    ensures n == m && s == t
  {
    Associative("-", Decimal(n), s);
    Associative("-", Decimal(m), t);
    Cancel("-", Decimal(n) + s, Decimal(m) + t);
    DecimalUnique(n, m, s, t);
  }

  lemma IntUnique(n: int, m: int, s: string, t: string)
    requires Dumps(Int(n)) + s == Dumps(Int(m)) + t
    requires Stops(s) && Stops(t)
    ensures n == m && s == t
  {
    assert (Dumps(Int(n)) + s)[0] == Dumps(Int(n))[0];
    assert (Dumps(Int(m)) + t)[0] == Dumps(Int(m))[0];
    if n < 0 {
      NegativeUnique(-n, -m, s, t);
    } else {
      DecimalUnique(n, m, s, t);
    }
  }

  /** A value's text, followed by a delimiter, can be read back in one way only. */
  lemma {:induction false} DumpsUnique(a: Value, b: Value, s: string, t: string)
    requires Dumps(a) + s == Dumps(b) + t
    requires Stops(s) && Stops(t)
    ensures a == b && s == t
    decreases a, 1
  {
    DumpsForm(a);
    DumpsForm(b);
    assert (Dumps(a) + s)[0] == Dumps(a)[0];
    assert (Dumps(b) + t)[0] == Dumps(b)[0];
    assert Form(a) == Form(b);
    match a
    case Null => Cancel("null", s, t);
    case Bool(_) => assert a == b; Cancel(Dumps(a), s, t);
    case Int(n) => IntUnique(n, b.n, s, t);
    case Str(x) => QuoteUnique(x, b.s, s, t);
    case List(items) => ListUnique(items, b.items, s, t);
    case Dict(entries) => DictUnique(entries, b.entries, s, t);
  }

  /** The text of a non-empty list, of its remaining items, and of their dict counterparts, cut after
      the first component. */
  lemma ListText(xs: seq<Value>, s: string)
    requires xs != []
    ensures Dumps(List(xs)) + s == "[" + (Dumps(xs[0]) + (DumpsItems(xs[1..]) + s))
  {
    Regroup("[", Dumps(xs[0]), DumpsItems(xs[1..]), s);
  }

  lemma ItemsText(xs: seq<Value>, s: string)
    requires xs != []
    ensures DumpsItems(xs) + s == ", " + (Dumps(xs[0]) + (DumpsItems(xs[1..]) + s))
  {
    Regroup(", ", Dumps(xs[0]), DumpsItems(xs[1..]), s);
  }

  lemma EntryText(e: Entry, s: string)
    ensures DumpsEntry(e) + s == Quote(e.key) + (": " + (Dumps(e.val) + s))
  {
    Regroup(Quote(e.key), ": ", Dumps(e.val), s);
  }

  lemma DictText(es: seq<Entry>, s: string)
    requires es != []
    ensures Dumps(Dict(es)) + s == "{" + (DumpsEntry(es[0]) + (DumpsEntries(es[1..]) + s))
  {
    Regroup("{", DumpsEntry(es[0]), DumpsEntries(es[1..]), s);
  }

  lemma EntriesText(es: seq<Entry>, s: string)
    requires es != []
    ensures DumpsEntries(es) + s == ", " + (DumpsEntry(es[0]) + (DumpsEntries(es[1..]) + s))
  {
    Regroup(", ", DumpsEntry(es[0]), DumpsEntries(es[1..]), s);
  }

  lemma EmptyListUnique(ys: seq<Value>, s: string, t: string)
    requires "[]" + s == Dumps(List(ys)) + t
    ensures ys == []
  {
    assert ("[]" + s)[1] == ']';
    if ys != [] {
      ListText(ys, t);
      DumpsForm(ys[0]);
    }
  }

  lemma EmptyDictUnique(fs: seq<Entry>, s: string, t: string)
    requires "{}" + s == Dumps(Dict(fs)) + t
    ensures fs == []
  {
    assert ("{}" + s)[1] == '}';
    if fs != [] {
      DictText(fs, t);
    }
  }

  lemma {:induction false} ListUnique(xs: seq<Value>, ys: seq<Value>, s: string, t: string)
    requires Dumps(List(xs)) + s == Dumps(List(ys)) + t
    requires Stops(s) && Stops(t)
    ensures xs == ys && s == t
    decreases xs, 2
  {
    if xs == [] {
      EmptyListUnique(ys, s, t);
      Cancel("[]", s, t);
    } else if ys == [] {
      EmptyListUnique(xs, t, s);
    } else {
      ListText(xs, s);
      ListText(ys, t);
      FirstUnique("[", xs, ys, s, t);
    }
  }

  lemma {:induction false} ItemsUnique(xs: seq<Value>, ys: seq<Value>, s: string, t: string)
    requires DumpsItems(xs) + s == DumpsItems(ys) + t
    requires Stops(s) && Stops(t)
    ensures xs == ys && s == t
    decreases xs, 2
  {
    assert (DumpsItems(xs) + s)[0] == DumpsItems(xs)[0];
    assert (DumpsItems(ys) + t)[0] == DumpsItems(ys)[0];
    if xs == [] {
      Cancel("]", s, t);
    } else {
      ItemsText(xs, s);
      ItemsText(ys, t);
      FirstUnique(", ", xs, ys, s, t);
    }
  }

  /** Two non-empty runs of items with the same text agree on the first item, hence on the rest. */
  lemma {:induction false} FirstUnique(p: string, xs: seq<Value>, ys: seq<Value>, s: string, t: string)
    requires xs != [] && ys != []
    requires p + (Dumps(xs[0]) + (DumpsItems(xs[1..]) + s)) == p + (Dumps(ys[0]) + (DumpsItems(ys[1..]) + t))
    requires Stops(s) && Stops(t)
    ensures xs == ys && s == t
    decreases xs, 1
  {
    var s', t' := DumpsItems(xs[1..]) + s, DumpsItems(ys[1..]) + t;
    Cancel(p, Dumps(xs[0]) + s', Dumps(ys[0]) + t');
    DumpsUnique(xs[0], ys[0], s', t');
    ItemsUnique(xs[1..], ys[1..], s, t);
    assert xs == [xs[0]] + xs[1..] && ys == [ys[0]] + ys[1..];
  }

  lemma {:induction false} EntryUnique(e: Entry, f: Entry, s: string, t: string)
    requires DumpsEntry(e) + s == DumpsEntry(f) + t
    requires Stops(s) && Stops(t)
    ensures e == f && s == t
    decreases e, 0
  {
    var s', t' := Dumps(e.val) + s, Dumps(f.val) + t;
    EntryText(e, s);
    EntryText(f, t);
    QuoteUnique(e.key, f.key, ": " + s', ": " + t');
    Cancel(": ", s', t');
    DumpsUnique(e.val, f.val, s, t);
  }

  lemma {:induction false} DictUnique(es: seq<Entry>, fs: seq<Entry>, s: string, t: string)
    requires Dumps(Dict(es)) + s == Dumps(Dict(fs)) + t
    requires Stops(s) && Stops(t)
    ensures es == fs && s == t
    decreases es, 2
  {
    if es == [] {
      EmptyDictUnique(fs, s, t);
      Cancel("{}", s, t);
    } else if fs == [] {
      EmptyDictUnique(es, t, s);
    } else {
      DictText(es, s);
      DictText(fs, t);
      FirstEntryUnique("{", es, fs, s, t);
    }
  }

  lemma {:induction false} EntriesUnique(es: seq<Entry>, fs: seq<Entry>, s: string, t: string)
    requires DumpsEntries(es) + s == DumpsEntries(fs) + t
    requires Stops(s) && Stops(t)
    ensures es == fs && s == t
    decreases es, 2
  {
    assert (DumpsEntries(es) + s)[0] == DumpsEntries(es)[0];
    assert (DumpsEntries(fs) + t)[0] == DumpsEntries(fs)[0];
    if es == [] {
      Cancel("}", s, t);
    } else {
      EntriesText(es, s);
      EntriesText(fs, t);
      FirstEntryUnique(", ", es, fs, s, t);
    }
  }

  lemma {:induction false} FirstEntryUnique(p: string, es: seq<Entry>, fs: seq<Entry>, s: string, t: string)
    requires es != [] && fs != []
    requires p + (DumpsEntry(es[0]) + (DumpsEntries(es[1..]) + s)) ==
             p + (DumpsEntry(fs[0]) + (DumpsEntries(fs[1..]) + t))
    requires Stops(s) && Stops(t)
    ensures es == fs && s == t
    decreases es, 1
  {
    var s', t' := DumpsEntries(es[1..]) + s, DumpsEntries(fs[1..]) + t;
    Cancel(p, DumpsEntry(es[0]) + s', DumpsEntry(fs[0]) + t');
    EntryUnique(es[0], fs[0], s', t');
    EntriesUnique(es[1..], fs[1..], s, t);
    assert es == [es[0]] + es[1..] && fs == [fs[0]] + fs[1..];
  }

  /** The sort key used for list elements tells any two values apart. */
  lemma DumpsInjective(a: Value, b: Value)
    requires Dumps(a) == Dumps(b)
    ensures a == b
  {
    assert Dumps(a) + "" == Dumps(b) + "";
    DumpsUnique(a, b, "", "");
  }
}
