/** Canonical JSON text, `json.dumps(value, sort_keys=True, separators=(",", ":"))`: `_canonical_json` in
    ci/p022_battery_digest.py. Values are null, booleans, integers, strings, lists and objects. */
module CanonicalJson {
  import opened Ordering
  import opened Text

  datatype Json =
    | Null
    | Bool(b: bool)
    | Num(n: int)
    | Str(s: string)
    | Arr(items: seq<Json>)
    | Obj(fields: map<string, Json>)

  // ----- Strings

  function HexDigit(d: nat): char
    requires d < 16
  {
    if d < 10 then '0' + d as char else 'a' + (d - 10) as char
  }

  function Hex4(n: nat): (s: string)
    requires n < 0x10000
    ensures |s| == 4
  {
    [HexDigit(n / 4096), HexDigit(n / 256 % 16), HexDigit(n / 16 % 16), HexDigit(n % 16)]
  }

  function Unicode(n: nat): (s: string)
    requires n < 0x10000
    ensures |s| == 6
  {
    "\\u" + Hex4(n)
  }

  function EscapeChar(c: char): string {
    var n := c as nat;
    if c == '"' then "\\\""
    else if c == '\\' then "\\\\"
    else if c == '\n' then "\\n"
    else if c == '\r' then "\\r"
    else if c == '\t' then "\\t"
    else if n == 8 then "\\b"
    else if n == 12 then "\\f"
    else if 32 <= n <= 126 then [c]
    else if n < 0x10000 then Unicode(n)
    else Unicode(0xD800 + (n - 0x10000) / 1024) + Unicode(0xDC00 + (n - 0x10000) % 1024)
  }

  function Escape(s: string): string {
    if s == [] then [] else EscapeChar(s[0]) + Escape(s[1..])
  }

  function Quote(s: string): string {
    "\"" + Escape(s) + "\""
  }

  // ----- Values

  lemma LeastExists(s: set<string>)
    requires s != {}
    ensures exists k :: k in s && forall j :: j in s ==> StringLeq(k, j)
    decreases |s|
  {
    var x :| x in s;
    StringOrder();
    if s != {x} {
      LeastExists(s - {x});
      var k :| k in s - {x} && forall j :: j in s - {x} ==> StringLeq(k, j);
      var least := if StringLeq(x, k) then x else k;
      assert least in s && forall j :: j in s ==> StringLeq(least, j);
    } else {
      assert x in s && forall j :: j in s ==> StringLeq(x, j);
    }
  }

  function Least(s: set<string>): (k: string)
    requires s != {}
    ensures k in s && forall j :: j in s ==> StringLeq(k, j)
  {
    LeastExists(s);
    StringOrder();
    var k :| k in s && forall j :: j in s ==> StringLeq(k, j);
    k
  }

  function Encode(v: Json): string
    decreases v, 2
  {
    match v
    case Null => "null"
    case Bool(b) => if b then "true" else "false"
    case Num(n) => if n < 0 then "-" + Dec(-n) else Dec(n)
    case Str(s) => Quote(s)
    case Arr(items) => "[" + EncodeItems(v, items) + "]"
    case Obj(fields) => "{" + EncodeFields(v, fields) + "}"
  }

  function EncodeItems(v: Json, items: seq<Json>): string
    requires forall i :: 0 <= i < |items| ==> items[i] < v
    decreases v, 1, |items|
  {
    if items == [] then ""
    else if |items| == 1 then Encode(items[0])
    else Encode(items[0]) + "," + EncodeItems(v, items[1..])
  }

  /** The fields in the order of their keys. */
  function EncodeFields(v: Json, fields: map<string, Json>): string
    requires forall k :: k in fields ==> fields[k] < v
    decreases v, 1, |fields|
  {
    if fields == map[] then ""
    else
      var k := Least(fields.Keys);
      var rest := fields - {k};
      Quote(k) + ":" + Encode(fields[k]) + if rest == map[] then "" else "," + EncodeFields(v, rest)
  }

  // ----- No text encodes two strings

  lemma HexDigitInjective(a: nat, b: nat)
    requires a < 16 && b < 16 && HexDigit(a) == HexDigit(b)
    ensures a == b
  {}

  lemma Nibbles(n: nat)
    requires n < 0x10000
    ensures n == 4096 * (n / 4096) + 256 * (n / 256 % 16) + 16 * (n / 16 % 16) + n % 16
  {
    assert n / 256 == 16 * (n / 4096) + n / 256 % 16;
    assert n / 16 == 16 * (n / 256) + n / 16 % 16;
  }

  lemma Hex4Injective(a: nat, b: nat)
    requires a < 0x10000 && b < 0x10000 && Hex4(a) == Hex4(b)
    ensures a == b
  {
    Nibbles(a);
    Nibbles(b);
    hide HexDigit;
    assert Hex4(a)[0] == Hex4(b)[0] && Hex4(a)[1] == Hex4(b)[1] && Hex4(a)[2] == Hex4(b)[2] && Hex4(a)[3] == Hex4(b)[3];
    HexDigitInjective(a / 4096, b / 4096);
    HexDigitInjective(a / 256 % 16, b / 256 % 16);
    HexDigitInjective(a / 16 % 16, b / 16 % 16);
    HexDigitInjective(a % 16, b % 16);
  }

  lemma UnicodeInjective(a: nat, b: nat, x: string, y: string)
    requires a < 0x10000 && b < 0x10000 && Unicode(a) + x == Unicode(b) + y
    ensures a == b && x == y
  {
    var s := Unicode(a) + x;
    assert Hex4(a) == s[2..6] && Hex4(b) == s[2..6];
    Hex4Injective(a, b);
    assert x == s[6..] && y == s[6..];
  }

  /** Escapes start with a backslash and say by their second character which kind they are. */
  predicate IsShort(c: char) {
    c in {'"', '\\', '\n', '\r', '\t'} || c as nat == 8 || c as nat == 12
  }

  predicate IsPlain(c: char) {
    32 <= c as nat <= 126 && !IsShort(c)
  }

  function ShortCode(c: char): char
    requires IsShort(c)
  {
    if c == '"' then '"' else if c == '\\' then '\\' else if c == '\n' then 'n'
    else if c == '\r' then 'r' else if c == '\t' then 't' else if c as nat == 8 then 'b' else 'f'
  }

  lemma EscapeKinds(c: char)
    ensures IsPlain(c) ==> EscapeChar(c) == [c] && c != '\\' && c != '"'
    ensures IsShort(c) ==> EscapeChar(c) == ['\\', ShortCode(c)] && ShortCode(c) != 'u'
    ensures var n := c as nat; !IsPlain(c) && !IsShort(c) && n < 0x10000 ==>
      EscapeChar(c) == Unicode(n) && !(0xD800 <= n < 0xE000)
    ensures var n := c as nat; n >= 0x10000 ==>
      EscapeChar(c) == Unicode(0xD800 + (n - 0x10000) / 1024) + Unicode(0xDC00 + (n - 0x10000) % 1024)
  {}

  lemma ShortInjective(c: char, d: char)
    requires IsShort(c) && IsShort(d) && ShortCode(c) == ShortCode(d)
    ensures c == d
  {}

  /** The code units of a character written with \u: itself, or its surrogate pair. */
  function FirstUnit(n: nat): (u: nat)
    requires n < 0x110000
    ensures u < 0x10000
  {
    if n < 0x10000 then n else 0xD800 + (n - 0x10000) / 1024
  }

  function AfterFirst(n: nat, x: string): string
    requires n < 0x110000
  {
    if n < 0x10000 then x else Unicode(0xDC00 + (n - 0x10000) % 1024) + x
  }

  lemma LongForm(c: char, x: string)
    requires !IsPlain(c) && !IsShort(c)
    ensures EscapeChar(c) + x == Unicode(FirstUnit(c as nat)) + AfterFirst(c as nat, x)
    ensures c as nat < 0x10000 ==> !(0xD800 <= FirstUnit(c as nat) < 0xDC00)
    ensures c as nat >= 0x10000 ==> 0xD800 <= FirstUnit(c as nat) < 0xDC00
  {}

  lemma UnitsInjective(m: nat, n: nat, x: string, y: string)
    requires m < 0x110000 && n < 0x110000 && (m < 0x10000 <==> n < 0x10000)
    requires FirstUnit(m) == FirstUnit(n) && AfterFirst(m, x) == AfterFirst(n, y)
    ensures m == n && x == y
  {
    hide Unicode;
    if m >= 0x10000 { UnicodeInjective(0xDC00 + (m - 0x10000) % 1024, 0xDC00 + (n - 0x10000) % 1024, x, y); }
  }

  lemma LongInjective(c: char, d: char, x: string, y: string)
    requires !IsPlain(c) && !IsShort(c) && !IsPlain(d) && !IsShort(d)
    requires EscapeChar(c) + x == EscapeChar(d) + y
    ensures c == d && x == y
  {
    hide EscapeChar, Unicode, IsPlain, IsShort, FirstUnit, AfterFirst;
    LongForm(c, x);
    LongForm(d, y);
    UnicodeInjective(FirstUnit(c as nat), FirstUnit(d as nat), AfterFirst(c as nat, x), AfterFirst(d as nat, y));
    UnitsInjective(c as nat, d as nat, x, y);
  }

  lemma EscapeCharPrefixFree(c: char, d: char, x: string, y: string)
    requires EscapeChar(c) + x == EscapeChar(d) + y
    ensures c == d && x == y
  {
    EscapeKinds(c);
    EscapeKinds(d);
    var s := EscapeChar(c) + x;
    hide EscapeChar, ShortCode;
    if IsPlain(c) || IsPlain(d) {
      assert s[0] == EscapeChar(c)[0] == EscapeChar(d)[0];
      assert x == s[1..] && y == s[1..];
    } else if IsShort(c) || IsShort(d) {
      assert s[1] == EscapeChar(c)[1] == EscapeChar(d)[1];
      ShortInjective(c, d);
      assert x == s[2..] && y == s[2..];
    } else {
      LongInjective(c, d, x, y);
    }
  }

  /** Escaped text never starts with the closing quote. */
  lemma QuoteEnds(s: string, x: string)
    ensures (Escape(s) + "\"" + x)[0] == '"' <==> s == []
  {}

  /** Escaped text, the closing quote, and what follows. */
  function Tail(s: string, x: string): string {
    Escape(s) + "\"" + x
  }

  lemma TailStep(s: string, x: string)
    requires s != []
    ensures Tail(s, x) == EscapeChar(s[0]) + Tail(s[1..], x)
  {}

  lemma {:induction false} TailPrefixFree(s: string, t: string, x: string, y: string)
    requires Tail(s, x) == Tail(t, y)
    ensures s == t && x == y
  {
    hide EscapeChar;
    QuoteEnds(s, x);
    QuoteEnds(t, y);
    if s == [] {
      assert x == Tail(s, x)[1..] && y == Tail(t, y)[1..];
    } else {
      TailStep(s, x);
      TailStep(t, y);
      hide Tail;
      EscapeCharPrefixFree(s[0], t[0], Tail(s[1..], x), Tail(t[1..], y));
      TailPrefixFree(s[1..], t[1..], x, y);
      assert s == [s[0]] + s[1..] && t == [t[0]] + t[1..];
    }
  }

  lemma QuotePrefixFree(s: string, t: string, x: string, y: string)
    requires Quote(s) + x == Quote(t) + y
    ensures s == t && x == y
  {
    assert (Quote(s) + x)[1..] == Tail(s, x) && (Quote(t) + y)[1..] == Tail(t, y);
    TailPrefixFree(s, t, x, y);
  }

  // ----- No text encodes two numbers

  predicate IsDigit(c: char) {
    '0' <= c <= '9'
  }

  /** What may follow a value: nothing, or a character that ends it. */
  predicate Ended(x: string) {
    x == "" || x[0] in {',', ']', '}'}
  }

  lemma {:induction false} DigitRun(a: string, b: string, x: string, y: string)
    requires (forall c :: c in a ==> IsDigit(c)) && (forall c :: c in b ==> IsDigit(c))
    requires Ended(x) && Ended(y) && a + x == b + y
    ensures a == b && x == y
  {
    assert a != [] ==> (a + x)[0] == a[0] && a[0] in a;
    assert b != [] ==> (b + y)[0] == b[0] && b[0] in b;
    assert (a == [] ==> a + x == x) && (b == [] ==> b + y == y);
    if a != [] && b != [] {
      assert (a + x)[1..] == a[1..] + x && (b + y)[1..] == b[1..] + y;
      DigitRun(a[1..], b[1..], x, y);
      assert a == [a[0]] + a[1..] && b == [b[0]] + b[1..];
    }
  }

  lemma Minus(n: int, x: string)
    ensures (Encode(Num(n)) + x)[0] == '-' <==> n < 0
  {
    if n >= 0 { assert Dec(n)[0] in Dec(n); }
  }

  lemma NumPrefixFree(m: int, n: int, x: string, y: string)
    requires Encode(Num(m)) + x == Encode(Num(n)) + y && Ended(x) && Ended(y)
    ensures m == n && x == y
  {
    var s := Encode(Num(m)) + x;
    Minus(m, x);
    Minus(n, y);
    if m < 0 {
      assert s[1..] == Dec(-m) + x && s[1..] == Dec(-n) + y;
      DigitRun(Dec(-m), Dec(-n), x, y);
      DecInjective(-m, -n);
    } else {
      DigitRun(Dec(m), Dec(n), x, y);
      DecInjective(m, n);
    }
  }

  // ----- No text encodes two values

  /** The first character tells the kind of a value. */
  predicate Starts(v: Json, c: char) {
    match v
    case Null => c == 'n'
    case Bool(b) => c == if b then 't' else 'f'
    case Num(_) => c == '-' || IsDigit(c)
    case Str(_) => c == '"'
    case Arr(_) => c == '['
    case Obj(_) => c == '{'
  }

  lemma EncodeStarts(v: Json)
    ensures Encode(v) != "" && Starts(v, Encode(v)[0])
  {
    if v.Num? {
      var d := Dec(if v.n < 0 then -v.n else v.n);
      assert d[0] in d;
    }
  }

  lemma SameKind(v: Json, w: Json, x: string, y: string)
    requires Encode(v) + x == Encode(w) + y
    ensures (v.Null? <==> w.Null?) && (v.Num? <==> w.Num?) && (v.Str? <==> w.Str?) && (v.Arr? <==> w.Arr?)
      && (v.Obj? <==> w.Obj?)
    ensures v.Bool? <==> w.Bool?
    ensures v.Bool? ==> w == v
  {
    EncodeStarts(v);
    EncodeStarts(w);
    hide Encode;
    assert (Encode(v) + x)[0] == Encode(v)[0] && (Encode(w) + y)[0] == Encode(w)[0];
  }

  lemma SamePrefix(a: string, x: string, y: string)
    requires a + x == a + y
    ensures x == y
  {
    assert (a + x)[|a|..] == x && (a + y)[|a|..] == y;
  }

  lemma Unwrap(open: char, a: string, close: string, x: string)
    ensures ([open] + a + close + x)[1..] == a + close + x
  {}

  /** Two values whose texts agree up to where each ends are equal. */
  lemma {:induction false} EncodePrefixFree(v: Json, w: Json, x: string, y: string)
    requires Encode(v) + x == Encode(w) + y && Ended(x) && Ended(y)
    ensures v == w && x == y
    decreases v, 2
  {
    SameKind(v, w, x, y);
    if v.Null? || v.Bool? {
      SamePrefix(Encode(v), x, y);
    } else if v.Num? {
      NumPrefixFree(v.n, w.n, x, y);
    } else if v.Str? {
      QuotePrefixFree(v.s, w.s, x, y);
    } else if v.Arr? {
      Unwrap('[', EncodeItems(v, v.items), "]", x);
      Unwrap('[', EncodeItems(w, w.items), "]", y);
      ItemsPrefixFree(v, w, v.items, w.items, x, y);
    } else {
      Unwrap('{', EncodeFields(v, v.fields), "}", x);
      Unwrap('{', EncodeFields(w, w.fields), "}", y);
      FieldsPrefixFree(v, w, v.fields, w.fields, x, y);
    }
  }

  /** The rest of a list after an item: the end, or a comma and the remaining items. */
  function ItemsRest(v: Json, items: seq<Json>, x: string): string
    requires items != [] && forall i :: 0 <= i < |items| ==> items[i] < v
  {
    ItemsTail(v, items) + "]" + x
  }

  function ItemsTail(v: Json, items: seq<Json>): string
    requires items != [] && forall i :: 0 <= i < |items| ==> items[i] < v
  {
    if |items| == 1 then "" else "," + EncodeItems(v, items[1..])
  }

  lemma ItemsStep(v: Json, items: seq<Json>, x: string)
    requires items != [] && forall i :: 0 <= i < |items| ==> items[i] < v
    ensures EncodeItems(v, items) + "]" + x == Encode(items[0]) + ItemsRest(v, items, x)
    ensures Ended(ItemsRest(v, items, x)) && (ItemsRest(v, items, x)[0] == ',' <==> |items| > 1)
    ensures |items| > 1 ==> ItemsRest(v, items, x)[1..] == EncodeItems(v, items[1..]) + "]" + x
    ensures |items| == 1 ==> ItemsRest(v, items, x)[1..] == x
    ensures (EncodeItems(v, items) + "]" + x)[0] != ']'
  {
    EncodeStarts(items[0]);
    ItemsUnfold(v, items);
    hide Encode, EncodeItems;
    var tail := ItemsTail(v, items);
    assert Encode(items[0]) + tail + "]" + x == Encode(items[0]) + (tail + "]" + x);
    if |items| > 1 { Unwrap(',', EncodeItems(v, items[1..]), "]", x); }
    assert (Encode(items[0]) + ItemsRest(v, items, x))[0] == Encode(items[0])[0];
  }

  lemma ItemsUnfold(v: Json, items: seq<Json>)
    requires items != [] && forall i :: 0 <= i < |items| ==> items[i] < v
    ensures EncodeItems(v, items) == Encode(items[0]) + ItemsTail(v, items)
  {}

  lemma NoItems(v: Json, x: string)
    ensures (EncodeItems(v, []) + "]" + x)[0] == ']' && (EncodeItems(v, []) + "]" + x)[1..] == x
  {
    assert "" + "]" + x == "]" + x;
  }

  lemma {:induction false} ItemsPrefixFree(v: Json, w: Json, a: seq<Json>, b: seq<Json>, x: string, y: string)
    requires forall i :: 0 <= i < |a| ==> a[i] < v
    requires forall i :: 0 <= i < |b| ==> b[i] < w
    requires EncodeItems(v, a) + "]" + x == EncodeItems(w, b) + "]" + y
    ensures a == b && x == y
    decreases v, 1, |a|
  {
    hide Encode, EncodeItems, ItemsRest, Ended;
    NoItems(v, x);
    NoItems(w, y);
    if a != [] { ItemsStep(v, a, x); }
    if b != [] { ItemsStep(w, b, y); }
    if a != [] && b != [] {
      assert Ended(ItemsRest(v, a, x)) && Ended(ItemsRest(w, b, y));
      EncodePrefixFree(a[0], b[0], ItemsRest(v, a, x), ItemsRest(w, b, y));
      if |a| > 1 { ItemsPrefixFree(v, w, a[1..], b[1..], x, y); }
      assert a == [a[0]] + a[1..] && b == [b[0]] + b[1..];
    }
  }

  function FieldsRest(v: Json, fields: map<string, Json>, x: string): string
    requires forall k :: k in fields ==> fields[k] < v
  {
    (if fields == map[] then "" else "," + EncodeFields(v, fields)) + "}" + x
  }

  lemma FieldsStep(v: Json, fields: map<string, Json>, x: string)
    requires fields != map[] && forall k :: k in fields ==> fields[k] < v
    ensures var k := Least(fields.Keys); var rest := fields - {k};
      && EncodeFields(v, fields) + "}" + x == Quote(k) + (":" + (Encode(fields[k]) + FieldsRest(v, rest, x)))
      && Ended(FieldsRest(v, rest, x)) && (FieldsRest(v, rest, x)[0] == ',' <==> rest != map[])
      && (rest != map[] ==> FieldsRest(v, rest, x)[1..] == EncodeFields(v, rest) + "}" + x)
      && (rest == map[] ==> FieldsRest(v, rest, x)[1..] == x)
    ensures (EncodeFields(v, fields) + "}" + x)[0] == '"'
  {
    hide Encode, Least, Quote;
    var k := Least(fields.Keys);
    var rest := fields - {k};
    var tail := if rest == map[] then "" else "," + EncodeFields(v, rest);
    Glue(Quote(k), Encode(fields[k]), tail, x);
    assert FieldsRest(v, rest, x) == tail + "}" + x;
    if rest != map[] { Unwrap(',', EncodeFields(v, rest), "}", x); }
    QuoteStarts(k, ":" + (Encode(fields[k]) + FieldsRest(v, rest, x)));
  }

  lemma Glue(q: string, a: string, tail: string, x: string)
    ensures q + ":" + a + tail + "}" + x == q + (":" + (a + (tail + "}" + x)))
  {}

  lemma QuoteStarts(s: string, x: string)
    ensures (Quote(s) + x)[0] == '"'
  {}

  lemma NoFields(v: Json, x: string)
    ensures (EncodeFields(v, map[]) + "}" + x)[0] == '}' && (EncodeFields(v, map[]) + "}" + x)[1..] == x
  {
    assert "" + "}" + x == "}" + x;
  }

  lemma {:induction false} FieldsPrefixFree(v: Json, w: Json, a: map<string, Json>, b: map<string, Json>, x: string,
                                            y: string)
    requires forall k :: k in a ==> a[k] < v
    requires forall k :: k in b ==> b[k] < w
    requires EncodeFields(v, a) + "}" + x == EncodeFields(w, b) + "}" + y
    ensures a == b && x == y
    decreases v, 1, |a|
  {
    hide Encode, Least, Quote, EncodeFields, FieldsRest, Ended;
    NoFields(v, x);
    NoFields(w, y);
    if a != map[] { FieldsStep(v, a, x); }
    if b != map[] { FieldsStep(w, b, y); }
    if a != map[] && b != map[] {
      var j, k := Least(a.Keys), Least(b.Keys);
      var arest, brest := a - {j}, b - {k};
      var p, q := Encode(a[j]) + FieldsRest(v, arest, x), Encode(b[k]) + FieldsRest(w, brest, y);
      QuotePrefixFree(j, k, ":" + p, ":" + q);
      assert (":" + p)[1..] == p && (":" + q)[1..] == q;
      EncodePrefixFree(a[j], b[k], FieldsRest(v, arest, x), FieldsRest(w, brest, y));
      if arest != map[] { FieldsPrefixFree(v, w, arest, brest, x, y); }
      assert a == arest[j := a[j]] && b == brest[k := b[k]];
    }
  }

  /** Equal text means equal value: types, list order and contents count, key order does not. */
  lemma EncodeInjective(v: Json, w: Json)
    ensures Encode(v) == Encode(w) <==> v == w
  {
    if Encode(v) == Encode(w) { EncodePrefixFree(v, w, "", ""); }
  }
}
