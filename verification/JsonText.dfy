/** JSON values as Python holds them after `json.loads`, and the text `json.dumps`
    prints for them with `sort_keys=True, separators=(",", ":")`. */
module JsonText {
  import opened PyText
  import opened Sorting

  /** A `dict` is its entries in insertion order; `WellFormed` says its keys differ. */
  datatype Json =
    | Null
    | Bool(b: bool)
    | Int(n: int)
    | Str(s: string)
    | Arr(items: seq<Json>)
    | Obj(fields: seq<Field>)

  datatype Field = Field(name: string, value: Json)

  ghost predicate DistinctNames(fields: seq<Field>) {
    forall i, j :: 0 <= i < j < |fields| ==> fields[i].name != fields[j].name
  }

  ghost predicate WellFormed(j: Json) {
    match j
    case Arr(items) => forall i :: 0 <= i < |items| ==> WellFormed(items[i])
    case Obj(fields) =>
      && DistinctNames(fields)
      && forall i :: 0 <= i < |fields| ==> WellFormed(fields[i].value)
    case _ => true
  }

  // ---- string literals: the default `ensure_ascii=True` encoder ----

  function HexDigit(d: nat): char
    requires d < 16
  {
    "0123456789abcdef"[d]
  }

  function Hex4(n: nat): (s: string)
    requires n < 0x10000
    ensures |s| == 4
  {
    [HexDigit(n / 4096), HexDigit(n / 256 % 16), HexDigit(n / 16 % 16), HexDigit(n % 16)]
  }

  function Unit(n: nat): (s: string)
    requires n < 0x10000
    ensures |s| == 6 && s[0] == '\\' && s[1] == 'u'
  {
    "\\u" + Hex4(n)
  }

  function High(c: char): nat
    requires c as int >= 0x10000
  {
    0xD800 + (c as int - 0x10000) / 1024
  }

  function Low(c: char): nat
    requires c as int >= 0x10000
  {
    0xDC00 + (c as int - 0x10000) % 1024
  }

  predicate IsShort(c: char) { c in "\"\\\n\r\t\U{0008}\U{000C}" }

  function ShortCode(c: char): char
    requires IsShort(c)
  {
    if c == '"' then '"' else if c == '\\' then '\\' else if c == '\n' then 'n'
    else if c == '\r' then 'r' else if c == '\t' then 't' else if c == '\U{0008}' then 'b'
    else 'f'
  }

  function EscapeChar(c: char): (s: string)
    ensures s != ""
  {
    if IsShort(c) then ['\\', ShortCode(c)]
    else if ' ' <= c <= '~' then [c]
    else if c as int < 0x10000 then Unit(c as int)
    else Unit(High(c)) + Unit(Low(c))
  }

  function EscapeText(s: string): string {
    if s == "" then "" else EscapeChar(s[0]) + EscapeText(s[1..])
  }

  function Quote(s: string): string { ['"'] + EscapeText(s) + ['"'] }

  // ---- values ----

  /** One printed entry of an object: its key and the text of its value. */
  datatype Member = Member(name: string, text: string)

  predicate MemberLe(a: Member, b: Member) { Le(a.name, b.name) }

  function Dumps(j: Json): string {
    match j
    case Null => "null"
    case Bool(b) => if b then "true" else "false"
    case Int(n) => IntText(n)
    case Str(s) => Quote(s)
    case Arr(items) =>
      if items == [] then "[]" else "[" + Dumps(items[0]) + DumpsRest(items[1..])
    case Obj(fields) => MembersText(SortBy(Members(fields), MemberLe))
  }

  function DumpsRest(items: seq<Json>): string {
    if items == [] then "]" else "," + Dumps(items[0]) + DumpsRest(items[1..])
  }

  function Members(fields: seq<Field>): (ms: seq<Member>)
    ensures |ms| == |fields|
    ensures forall i :: 0 <= i < |fields| ==>
              ms[i].name == fields[i].name && ms[i].text == Dumps(fields[i].value)
  {
    if fields == [] then []
    else [Member(fields[0].name, Dumps(fields[0].value))] + Members(fields[1..])
  }

  function MemberText(m: Member): string { Quote(m.name) + ":" + m.text }

  function MembersText(ms: seq<Member>): string {
    if ms == [] then "{}" else "{" + MemberText(ms[0]) + MembersRest(ms[1..])
  }

  function MembersRest(ms: seq<Member>): string {
    if ms == [] then "}" else "," + MemberText(ms[0]) + MembersRest(ms[1..])
  }

  // ---- escapes are a prefix code ----

  lemma HexDigitInjective(d: nat, e: nat)
    requires d < 16 && e < 16 && HexDigit(d) == HexDigit(e)
    ensures d == e
  {
  }

  lemma FourDigits(n: nat)
    requires n < 0x10000
    ensures n == 4096 * (n / 4096) + 256 * (n / 256 % 16) + 16 * (n / 16 % 16) + n % 16
  {
    var q := n / 16;
    assert n / 256 == q / 16 && n / 4096 == q / 16 / 16;
  }

  lemma UnitInjective(m: nat, n: nat)
    requires m < 0x10000 && n < 0x10000 && Unit(m) == Unit(n)
    ensures m == n
  {
    assert Unit(m)[2..] == Hex4(m) && Unit(n)[2..] == Hex4(n);
    var s, t := Hex4(m), Hex4(n);
    assert s[0] == t[0] && s[1] == t[1] && s[2] == t[2] && s[3] == t[3];
    HexDigitInjective(m / 4096, n / 4096);
    HexDigitInjective(m / 256 % 16, n / 256 % 16);
    HexDigitInjective(m / 16 % 16, n / 16 % 16);
    HexDigitInjective(m % 16, n % 16);
    FourDigits(m);
    FourDigits(n);
  }

  /** The first 16-bit code unit an escaped character prints. */
  ghost function FirstUnit(c: char): nat
    requires !IsShort(c) && !(' ' <= c <= '~')
  {
    if c as int < 0x10000 then c as int else High(c)
  }

  /** Printed as code units. */
  ghost predicate Wide(c: char) { !IsShort(c) && !(' ' <= c <= '~') }

  lemma NarrowHead(c: char, x: string)
    requires !Wide(c)
    ensures EscapeChar(c) + x != ""
    ensures IsShort(c) ==> |EscapeChar(c) + x| >= 2
                           && (EscapeChar(c) + x)[0] == '\\' && (EscapeChar(c) + x)[1] == ShortCode(c)
                           && (EscapeChar(c) + x)[2..] == x
    ensures !IsShort(c) ==> (EscapeChar(c) + x)[0] == c && c != '\\' && (EscapeChar(c) + x)[1..] == x
  {
  }

  lemma WideHead(c: char, x: string)
    requires Wide(c)
    ensures |EscapeChar(c) + x| >= 6 && (EscapeChar(c) + x)[..6] == Unit(FirstUnit(c))
    ensures (EscapeChar(c) + x)[0] == '\\' && (EscapeChar(c) + x)[1] == 'u'
    ensures (EscapeChar(c) + x)[6..] == if c as int < 0x10000 then x else Unit(Low(c)) + x
  {
    var rest := if c as int < 0x10000 then x else Unit(Low(c)) + x;
    assert EscapeChar(c) + x == Unit(FirstUnit(c)) + rest;
    assert (EscapeChar(c) + x)[0] == Unit(FirstUnit(c))[0] && (EscapeChar(c) + x)[1] == Unit(FirstUnit(c))[1];
  }

  lemma SurrogatesSplit(a: char, b: char)
    requires !IsShort(a) && !(' ' <= a <= '~') && !IsShort(b) && !(' ' <= b <= '~')
    requires FirstUnit(a) == FirstUnit(b)
    ensures (a as int < 0x10000) == (b as int < 0x10000)
    ensures a as int < 0x10000 ==> a == b
    ensures a as int >= 0x10000 && Low(a) == Low(b) ==> a == b
  {
  }

  lemma EscapePrefix(a: char, b: char, x: string, y: string)
    requires EscapeChar(a) + x == EscapeChar(b) + y
    ensures a == b && x == y
  {
    if Wide(a) && Wide(b) {
      WidePrefix(a, b, x, y);
    } else if !Wide(a) && !Wide(b) {
      NarrowPrefix(a, b, x, y);
    } else if Wide(a) {
      WideHead(a, x);
      NarrowHead(b, y);
    } else {
      NarrowHead(a, x);
      WideHead(b, y);
    }
  }

  lemma NarrowPrefix(a: char, b: char, x: string, y: string)
    requires !Wide(a) && !Wide(b) && EscapeChar(a) + x == EscapeChar(b) + y
    ensures a == b && x == y
  {
    NarrowHead(a, x);
    NarrowHead(b, y);
  }

  lemma WidePrefix(a: char, b: char, x: string, y: string)
    requires Wide(a) && Wide(b) && EscapeChar(a) + x == EscapeChar(b) + y
    ensures a == b && x == y
  {
    WideHead(a, x);
    WideHead(b, y);
    UnitInjective(FirstUnit(a), FirstUnit(b));
    SurrogatesSplit(a, b);
    if a as int >= 0x10000 {
      assert (Unit(Low(a)) + x)[..6] == Unit(Low(a)) && (Unit(Low(b)) + y)[..6] == Unit(Low(b));
      assert (Unit(Low(a)) + x)[6..] == x && (Unit(Low(b)) + y)[6..] == y;
      UnitInjective(Low(a), Low(b));
    }
  }

  /** What follows the opening quote of a literal that is followed by `r`. */
  ghost function QuoteRest(s: string, r: string): string {
    if s == "" then ['"'] + r else EscapeChar(s[0]) + QuoteRest(s[1..], r)
  }

  lemma {:induction false} QuoteRestIs(s: string, r: string)
    ensures QuoteRest(s, r) == EscapeText(s) + ['"'] + r
  {
    if s == "" {
      assert EscapeText(s) + ['"'] + r == ['"'] + r;
    } else {
      QuoteRestIs(s[1..], r);
      assert EscapeChar(s[0]) + (EscapeText(s[1..]) + ['"'] + r)
          == EscapeChar(s[0]) + EscapeText(s[1..]) + ['"'] + r;
    }
  }

  lemma QuoteRestHead(s: string, r: string)
    ensures QuoteRest(s, r) != ""
    ensures QuoteRest(s, r)[0] == '"' <==> s == ""
    ensures s == "" ==> QuoteRest(s, r)[1..] == r
  {
    if s != "" {
      var c, rest := s[0], QuoteRest(s[1..], r);
      if Wide(c) { WideHead(c, rest); } else { NarrowHead(c, rest); }
    }
  }

  lemma {:induction false} QuoteRestSplit(a: string, b: string, r: string, s: string)
    requires QuoteRest(a, r) == QuoteRest(b, s)
    ensures a == b && r == s
  {
    QuoteRestHead(a, r);
    QuoteRestHead(b, s);
    if a != "" {
      EscapePrefix(a[0], b[0], QuoteRest(a[1..], r), QuoteRest(b[1..], s));
      QuoteRestSplit(a[1..], b[1..], r, s);
      assert a == [a[0]] + a[1..] && b == [b[0]] + b[1..];
    }
  }

  lemma QuoteText(a: string, r: string)
    ensures Quote(a) + r != "" && (Quote(a) + r)[0] == '"'
    ensures (Quote(a) + r)[1..] == QuoteRest(a, r)
  {
    QuoteRestIs(a, r);
    assert Quote(a) + r == ['"'] + (EscapeText(a) + ['"'] + r);
  }

  /** String literals are self-delimiting. */
  lemma QuoteSplit(a: string, b: string, r: string, s: string)
    requires Quote(a) + r == Quote(b) + s
    ensures a == b && r == s
  {
    QuoteText(a, r);
    QuoteText(b, s);
    QuoteRestSplit(a, b, r, s);
  }

  // ---- the printed text determines the value ----

  predicate NameLe(a: Field, b: Field) { Le(a.name, b.name) }

  /** Every object lists its entries in key order, at every depth. */
  ghost predicate KeySorted(j: Json) {
    match j
    case Arr(items) => forall i :: 0 <= i < |items| ==> KeySorted(items[i])
    case Obj(fields) =>
      && SortedBy(fields, NameLe)
      && forall i :: 0 <= i < |fields| ==> KeySorted(fields[i].value)
    case _ => true
  }

  /** The text of `j`, entries in stored order, followed by `r`. */
  ghost function Print(j: Json, r: string): string {
    match j
    case Null => "null" + r
    case Bool(b) => if b then "true" + r else "false" + r
    case Int(n) => IntText(n) + r
    case Str(s) => Quote(s) + r
    case Arr(items) =>
      if items == [] then "[]" + r else ['['] + Print(items[0], PrintRest(items[1..], r))
    case Obj(fields) =>
      if fields == [] then "{}" + r else ['{'] + PrintField(fields[0], PrintFields(fields[1..], r))
  }

  ghost function PrintRest(items: seq<Json>, r: string): (t: string)
    ensures t != "" && (t[0] == ']' || t[0] == ',')
  {
    if items == [] then [']'] + r else [','] + Print(items[0], PrintRest(items[1..], r))
  }

  ghost function PrintField(f: Field, r: string): string {
    Quote(f.name) + ([':'] + Print(f.value, r))
  }

  ghost function PrintFields(fields: seq<Field>, r: string): (t: string)
    ensures t != "" && (t[0] == '}' || t[0] == ',')
  {
    if fields == [] then ['}'] + r else [','] + PrintField(fields[0], PrintFields(fields[1..], r))
  }

  lemma Regroup(a: string, b: string, c: string, d: string)
    ensures a + b + c + d == a + (b + (c + d))
  {
  }

  lemma {:induction false} PrintIsDumps(j: Json, r: string)
    requires KeySorted(j)
    ensures Print(j, r) == Dumps(j) + r
    decreases j
  {
    match j
    case Arr(items) =>
      if items != [] {
        PrintIsDumps(items[0], PrintRest(items[1..], r));
        PrintRestIs(items[1..], r);
        Regroup("[", Dumps(items[0]), DumpsRest(items[1..]), r);
      }
    case Obj(fields) =>
      MembersSorted(fields);
      if fields != [] {
        PrintFieldIs(fields[0], PrintFields(fields[1..], r));
        PrintFieldsIs(fields[1..], r);
        MembersHead(fields);
        Regroup("{", MemberText(Members(fields)[0]), MembersRest(Members(fields[1..])), r);
      }
    case _ =>
  }

  lemma MembersHead(fields: seq<Field>)
    requires fields != []
    ensures Members(fields)[0] == Member(fields[0].name, Dumps(fields[0].value))
    ensures Members(fields)[1..] == Members(fields[1..])
  {
  }

  lemma {:induction false} PrintRestIs(items: seq<Json>, r: string)
    requires forall i :: 0 <= i < |items| ==> KeySorted(items[i])
    ensures PrintRest(items, r) == DumpsRest(items) + r
    decreases items
  {
    if items != [] {
      PrintIsDumps(items[0], PrintRest(items[1..], r));
      PrintRestIs(items[1..], r);
      Regroup(",", Dumps(items[0]), DumpsRest(items[1..]), r);
    }
  }

  lemma {:induction false} PrintFieldIs(f: Field, r: string)
    requires KeySorted(f.value)
    ensures PrintField(f, r) == MemberText(Member(f.name, Dumps(f.value))) + r
    decreases f
  {
    PrintIsDumps(f.value, r);
    Regroup(Quote(f.name), ":", Dumps(f.value), r);
  }

  lemma {:induction false} PrintFieldsIs(fields: seq<Field>, r: string)
    requires forall i :: 0 <= i < |fields| ==> KeySorted(fields[i].value)
    ensures PrintFields(fields, r) == MembersRest(Members(fields)) + r
    decreases fields
  {
    if fields != [] {
      PrintFieldIs(fields[0], PrintFields(fields[1..], r));
      PrintFieldsIs(fields[1..], r);
      MembersHead(fields);
      Regroup(",", MemberText(Members(fields)[0]), MembersRest(Members(fields[1..])), r);
    }
  }

  lemma MembersSorted(fields: seq<Field>)
    requires SortedBy(fields, NameLe)
    ensures SortBy(Members(fields), MemberLe) == Members(fields)
  {
    var ms := Members(fields);
    forall i, j | 0 <= i < j < |ms| ensures MemberLe(ms[i], ms[j]) {
      assert NameLe(fields[i], fields[j]);
    }
    SortOfSorted(ms, MemberLe);
  }

  ghost predicate EndsNumeral(r: string) { !StartsWithDigit(r) }

  lemma PrintHead(j: Json, r: string)
    ensures Print(j, r) != ""
    ensures var c := Print(j, r)[0];
            match j
            case Null => c == 'n'
            case Bool(b) => c == if b then 't' else 'f'
            case Int(n) => IsDigit(c) || c == '-'
            case Str(s) => c == '"'
            case Arr(items) => c == '['
            case Obj(fields) => c == '{'
  {
    match j
    case Int(n) => IntTextHead(n, r);
    case Str(s) => QuoteText(s, r);
    case _ =>
  }

  /** A printed value can be read back from the front of any text. */
  lemma {:induction false} PrintSplit(x: Json, y: Json, r: string, s: string)
    requires EndsNumeral(r) && EndsNumeral(s)
    requires Print(x, r) == Print(y, s)
    ensures x == y && r == s
    decreases x
  {
    PrintHead(x, r);
    PrintHead(y, s);
    match x
    case Null => assert ("null" + r)[4..] == r && ("null" + s)[4..] == s;
    case Bool(b) =>
      if b {
        assert ("true" + r)[4..] == r && ("true" + s)[4..] == s;
      } else {
        assert ("false" + r)[5..] == r && ("false" + s)[5..] == s;
      }
    case Int(n) => IntTextSplit(n, y.n, r, s);
    case Str(t) => QuoteSplit(t, y.s, r, s);
    case Arr(items) => ItemsSplit(items, y.items, r, s);
    case Obj(fields) => ObjectSplit(fields, y.fields, r, s);
  }

  lemma {:induction false} ItemsSplit(xs: seq<Json>, ys: seq<Json>, r: string, s: string)
    requires Print(Arr(xs), r) == Print(Arr(ys), s)
    ensures xs == ys && r == s
    decreases xs, 1
  {
    var t, u := Print(Arr(xs), r), Print(Arr(ys), s);
    if xs != [] {
      assert t[1..] == Print(xs[0], PrintRest(xs[1..], r));
      PrintHead(xs[0], PrintRest(xs[1..], r));
    } else {
      assert t[1..] == [']'] + r;
    }
    if ys != [] {
      assert u[1..] == Print(ys[0], PrintRest(ys[1..], s));
      PrintHead(ys[0], PrintRest(ys[1..], s));
    } else {
      assert u[1..] == [']'] + s;
    }
    if xs != [] {
      PrintSplit(xs[0], ys[0], PrintRest(xs[1..], r), PrintRest(ys[1..], s));
      RestSplit(xs[1..], ys[1..], r, s);
      assert xs == [xs[0]] + xs[1..] && ys == [ys[0]] + ys[1..];
    } else {
      assert ([']'] + r)[1..] == r && ([']'] + s)[1..] == s;
    }
  }

  lemma {:induction false} RestSplit(xs: seq<Json>, ys: seq<Json>, r: string, s: string)
    requires PrintRest(xs, r) == PrintRest(ys, s)
    ensures xs == ys && r == s
    decreases xs, 0
  {
    var t, u := PrintRest(xs, r), PrintRest(ys, s);
    if xs == [] {
      assert t[1..] == r && u[1..] == s;
    } else {
      assert t[1..] == Print(xs[0], PrintRest(xs[1..], r));
      assert u[1..] == Print(ys[0], PrintRest(ys[1..], s));
      PrintSplit(xs[0], ys[0], PrintRest(xs[1..], r), PrintRest(ys[1..], s));
      RestSplit(xs[1..], ys[1..], r, s);
      assert xs == [xs[0]] + xs[1..] && ys == [ys[0]] + ys[1..];
    }
  }

  lemma {:induction false} ObjectSplit(fs: seq<Field>, gs: seq<Field>, r: string, s: string)
    requires Print(Obj(fs), r) == Print(Obj(gs), s)
    ensures fs == gs && r == s
    decreases fs, 1
  {
    var t, u := Print(Obj(fs), r), Print(Obj(gs), s);
    if fs != [] {
      assert t[1..] == PrintField(fs[0], PrintFields(fs[1..], r));
      QuoteText(fs[0].name, [':'] + Print(fs[0].value, PrintFields(fs[1..], r)));
    } else {
      assert t[1..] == ['}'] + r;
    }
    if gs != [] {
      assert u[1..] == PrintField(gs[0], PrintFields(gs[1..], s));
      QuoteText(gs[0].name, [':'] + Print(gs[0].value, PrintFields(gs[1..], s)));
    } else {
      assert u[1..] == ['}'] + s;
    }
    if fs != [] {
      FieldSplit(fs[0], gs[0], PrintFields(fs[1..], r), PrintFields(gs[1..], s));
      FieldsSplit(fs[1..], gs[1..], r, s);
      assert fs == [fs[0]] + fs[1..] && gs == [gs[0]] + gs[1..];
    } else {
      assert (['}'] + r)[1..] == r && (['}'] + s)[1..] == s;
    }
  }

  lemma {:induction false} FieldSplit(f: Field, g: Field, r: string, s: string)
    requires EndsNumeral(r) && EndsNumeral(s)
    requires PrintField(f, r) == PrintField(g, s)
    ensures f == g && r == s
    decreases f, 0
  {
    QuoteSplit(f.name, g.name, [':'] + Print(f.value, r), [':'] + Print(g.value, s));
    assert ([':'] + Print(f.value, r))[1..] == Print(f.value, r);
    assert ([':'] + Print(g.value, s))[1..] == Print(g.value, s);
    PrintSplit(f.value, g.value, r, s);
  }

  lemma {:induction false} FieldsSplit(fs: seq<Field>, gs: seq<Field>, r: string, s: string)
    requires PrintFields(fs, r) == PrintFields(gs, s)
    ensures fs == gs && r == s
    decreases fs, 0
  {
    var t, u := PrintFields(fs, r), PrintFields(gs, s);
    if fs == [] {
      assert t[1..] == r && u[1..] == s;
    } else {
      assert t[1..] == PrintField(fs[0], PrintFields(fs[1..], r));
      assert u[1..] == PrintField(gs[0], PrintFields(gs[1..], s));
      FieldSplit(fs[0], gs[0], PrintFields(fs[1..], r), PrintFields(gs[1..], s));
      FieldsSplit(fs[1..], gs[1..], r, s);
      assert fs == [fs[0]] + fs[1..] && gs == [gs[0]] + gs[1..];
    }
  }

  /** Two key-sorted values print the same text only when they are the same value. */
  lemma DumpsInjective(x: Json, y: Json)
    requires KeySorted(x) && KeySorted(y) && Dumps(x) == Dumps(y)
    ensures x == y
  {
    PrintIsDumps(x, "");
    PrintIsDumps(y, "");
    PrintSplit(x, y, "", "");
  }
}
