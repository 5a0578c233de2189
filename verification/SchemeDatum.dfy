/** Scheme datums: the printer, and the recursive-descent parser as a class with an index into its source. */
module SchemeDatum {
  import opened Basics
  import Decimal

  /** Symbols are read as strings, dotted pairs as tuples of two. */
  datatype Value = Bool(b: bool) | Int(n: int) | Str(s: string) | Tuple(items: seq<Value>)

  datatype Failure =
    | UnexpectedEnd | TrailingData | MissingHead | UnterminatedString | UnterminatedEscape
    | ExpectedDatum | ExpectedToken | BadInteger | NotRows

  datatype Read<+T> = Read(value: T, next: nat)

  type Reading<+T> = Result<Read<T>, Failure>

  /** Python's Unicode tables: `isdigit`, and the value of a decimal digit. */
  datatype Unicode = Unicode(isDigit: char -> bool, decimal: char -> Option<nat>)

  /** What the tables say of ASCII. */
  ghost predicate Standard(u: Unicode) {
    && (forall c :: c < 128 as char ==> (u.isDigit(c) <==> Decimal.IsDigit(c)))
    && (forall c :: Decimal.IsDigit(c) ==> u.decimal(c) == Some(Decimal.DigitValue(c)))
  }

  // ---------- printer ----------

  /** Replaces every occurrence of one character. */
  function Replace(s: string, c: char, with: string): string {
    if |s| == 0 then [] else (if s[0] == c then with else [s[0]]) + Replace(s[1..], c, with)
  }

  function Escape(s: string): string {
    Replace(Replace(Replace(s, '\\', "\\\\"), '"', "\\\""), '\n', "\\n")
  }

  function WriteInt(n: int): string {
    if n < 0 then "-" + Decimal.Digits(-n) else Decimal.Digits(n)
  }

  function Write(v: Value): (s: string)
    ensures |s| > 0
  {
    match v
    case Bool(b) => if b then "#t" else "#f"
    case Int(n) => WriteInt(n)
    case Str(s) => "\"" + Escape(s) + "\""
    case Tuple(items) => "(" + Join(items) + ")"
  }

  function Join(items: seq<Value>): string {
    if |items| == 0 then ""
    else if |items| == 1 then Write(items[0])
    else Write(items[0]) + " " + Join(items[1..])
  }

  // ---------- what the parser computes ----------

  predicate IsSpace(c: char) {
    || 9 as char <= c <= 13 as char || 28 as char <= c <= 32 as char || c == '\U{85}' || c == '\U{A0}'
    || c == '\U{1680}' || '\U{2000}' <= c <= '\U{200A}' || c == '\U{2028}' || c == '\U{2029}' || c == '\U{202F}'
    || c == '\U{205F}' || c == '\U{3000}'
  }

  predicate EndsAtom(c: char) {
    IsSpace(c) || c == '(' || c == ')'
  }

  function SkipSpace(src: string, i: nat): (j: nat)
    requires i <= |src|
    ensures i <= j <= |src|
    decreases |src| - i
  {
    if i < |src| && IsSpace(src[i]) then SkipSpace(src, i + 1) else i
  }

  function AtomEnd(src: string, i: nat): (j: nat)
    requires i <= |src|
    ensures i <= j <= |src|
    decreases |src| - i
  {
    if i < |src| && !EndsAtom(src[i]) then AtomEnd(src, i + 1) else i
  }

  function StripSigns(token: string): string {
    if |token| > 0 && (token[0] == '+' || token[0] == '-') then StripSigns(token[1..]) else token
  }

  predicate AllDigits(u: Unicode, s: string) {
    |s| > 0 && forall k :: 0 <= k < |s| ==> u.isDigit(s[k])
  }

  function Number(u: Unicode, s: string): Option<nat> {
    if |s| == 0 then Some(0)
    else
      match (Number(u, s[..|s| - 1]), u.decimal(s[|s| - 1]))
      case (Some(m), Some(d)) => Some(10 * m + d)
      case _ => None
  }

  function Signed(sign: int, n: Option<nat>): Option<int> {
    match n
    case Some(m) => Some(sign * m)
    case None => None
  }

  /** `int(token)`: at most one sign, then decimal digits only. */
  function ToInt(u: Unicode, token: string): Option<int> {
    if |token| == 0 then None
    else if |token| > 1 && token[0] == '-' then Signed(-1, Number(u, token[1..]))
    else if |token| > 1 && token[0] == '+' then Signed(1, Number(u, token[1..]))
    else Signed(1, Number(u, token))
  }

  function AtomValue(u: Unicode, token: string): Result<Value, Failure> {
    if token == "#t" then Ok(Bool(true))
    else if token == "#f" then Ok(Bool(false))
    else if AllDigits(u, StripSigns(token)) then
      match ToInt(u, token)
      case Some(n) => Ok(Int(n))
      case None => Err(BadInteger)
    else Ok(Str(token))
  }

  function Atom(u: Unicode, src: string, i: nat): (r: Reading<Value>)
    requires i <= |src|
    ensures r.Ok? ==> i < r.value.next <= |src|
  {
    var j := AtomEnd(src, i);
    if j == i then Err(ExpectedDatum)
    else
      match AtomValue(u, src[i..j])
      case Ok(v) => Ok(Read(v, j))
      case Err(e) => Err(e)
  }

  function Prepend(c: string, r: Reading<string>): Reading<string> {
    match r
    case Ok(s) => Ok(Read(c + s.value, s.next))
    case Err(e) => Err(e)
  }

  function Unescaped(c: char): char {
    if c == 'n' then '\n' else c
  }

  /** The rest of a string, from inside its quotes. */
  function StringBody(src: string, i: nat): (r: Reading<string>)
    requires i <= |src|
    ensures r.Ok? ==> i < r.value.next <= |src|
    decreases |src| - i
  {
    if i >= |src| then Err(UnterminatedString)
    else if src[i] == '"' then Ok(Read("", i + 1))
    else if src[i] != '\\' then Prepend([src[i]], StringBody(src, i + 1))
    else if i + 1 >= |src| then Err(UnterminatedEscape)
    else Prepend([Unescaped(src[i + 1])], StringBody(src, i + 2))
  }

  predicate DotToken(src: string, i: nat) {
    i < |src| && src[i] == '.' && (i + 1 >= |src| || IsSpace(src[i + 1]) || src[i + 1] == ')')
  }

  /** (a b . c) is a pair of a and the pair of b and c. */
  function Pairs(items: seq<Value>, last: Value): Value {
    if |items| == 0 then last else Pairs(items[..|items| - 1], Tuple([items[|items| - 1], last]))
  }

  function Datum(u: Unicode, src: string, i: nat): (r: Reading<Value>)
    requires i <= |src|
    ensures r.Ok? ==> i < r.value.next <= |src|
    decreases |src| - i, 1
  {
    var j := SkipSpace(src, i);
    if j >= |src| then Err(UnexpectedEnd)
    else if src[j] == '(' then Items(u, src, j + 1, [])
    else if src[j] == '"' then
      match StringBody(src, j + 1)
      case Ok(s) => Ok(Read(Str(s.value), s.next))
      case Err(e) => Err(e)
    else if src[j] == '#' && j + 1 < |src| && src[j + 1] == '(' then Items(u, src, j + 2, [])
    else Atom(u, src, j)
  }

  /** The rest of a list, from inside its parentheses, after `items`. */
  function Items(u: Unicode, src: string, i: nat, items: seq<Value>): (r: Reading<Value>)
    requires i <= |src|
    ensures r.Ok? ==> i < r.value.next <= |src|
    decreases |src| - i, 2
  {
    var j := SkipSpace(src, i);
    if j >= |src| then Err(UnexpectedEnd)
    else if src[j] == ')' then Ok(Read(Tuple(items), j + 1))
    else if DotToken(src, j) then
      if |items| == 0 then Err(MissingHead)
      else
        match Datum(u, src, j + 1)
        case Err(e) => Err(e)
        case Ok(d) =>
          var k := SkipSpace(src, d.next);
          if k >= |src| then Err(UnexpectedEnd)
          else if src[k] != ')' then Err(ExpectedToken)
          else Ok(Read(Pairs(items, d.value), k + 1))
    else
      match Datum(u, src, j)
      case Err(e) => Err(e)
      case Ok(d) => Items(u, src, d.next, items + [d.value])
  }

  function Parsed(u: Unicode, src: string): Result<Value, Failure> {
    match Datum(u, src, 0)
    case Err(e) => Err(e)
    case Ok(d) => if SkipSpace(src, d.next) != |src| then Err(TrailingData) else Ok(d.value)
  }

  /** Only a tuple is a row sequence. */
  function Rows(u: Unicode, src: string): Result<Value, Failure> {
    match Parsed(u, src)
    case Ok(v) => if v.Tuple? then Ok(v) else Err(NotRows)
    case Err(e) => Err(e)
  }

  // ---------- the parser ----------

  class Parser {
    const u: Unicode
    const source: string
    var index: nat

    ghost predicate Valid()
      reads this
    {
      index <= |source|
    }

    constructor (u: Unicode, source: string)
      ensures Valid() && index == 0 && this.u == u && this.source == source
    {
      this.u := u;
      this.source := source;
      index := 0;
    }

    /** The call returned what `r` says: a value, and the index after it; or a failure. */
    ghost predicate Did<T>(result: Result<T, Failure>, r: Reading<T>)
      reads this
    {
      Valid() && match r
                 case Ok(d) => result == Ok(d.value) && index == d.next
                 case Err(e) => result == Err(e)
    }

    method Parse() returns (result: Result<Value, Failure>)
      requires Valid() && index == 0
      modifies this
      ensures result == Parsed(u, source)
    {
      result := ReadDatum();
      if result.Err? {
        return;
      }
      SkipSpaces();
      if index != |source| {
        return Err(TrailingData);
      }
    }

    method SkipSpaces()
      requires Valid()
      modifies this
      ensures Valid() && index == SkipSpace(source, old(index))
    {
      while index < |source| && IsSpace(source[index])
        invariant Valid() && SkipSpace(source, index) == SkipSpace(source, old(index))
      {
        index := index + 1;
      }
    }

    method ReadDatum() returns (result: Result<Value, Failure>)
      requires Valid()
      modifies this
      ensures Did(result, Datum(u, source, old(index)))
      decreases |source| - index, 1
    {
      SkipSpaces();
      if index >= |source| {
        return Err(UnexpectedEnd);
      }
      if source[index] == '(' {
        result := ReadList();
      } else if source[index] == '"' {
        result := ReadString();
      } else if source[index] == '#' && index + 1 < |source| && source[index + 1] == '(' {
        index := index + 1;
        result := ReadList();
      } else {
        result := ReadAtom();
      }
    }

    method ReadList() returns (result: Result<Value, Failure>)
      requires Valid() && index < |source| && source[index] == '('
      modifies this
      ensures Did(result, Items(u, source, old(index) + 1, []))
      decreases |source| - index, 0
    {
      index := index + 1;
      var items: seq<Value> := [];
      while true
        invariant Valid() && old(index) < index
        invariant Items(u, source, index, items) == Items(u, source, old(index) + 1, [])
        decreases |source| - index
      {
        SkipOnce(source, index);
        ItemsAfterSpace(u, source, index, items);
        SkipSpaces();
        if index >= |source| {
          return Err(UnexpectedEnd);
        }
        if source[index] == ')' {
          index := index + 1;
          return Ok(Tuple(items));
        }
        if DotToken(source, index) {
          result := ReadTail(items);
          return;
        }
        ghost var at := index;
        var item := ReadDatum();
        if item.Err? {
          return item;
        }
        ItemsStep(u, source, at, index, item.value, items);
        items := items + [item.value];
      }
    }

    /** A dot was found after `items`. */
    method ReadTail(items: seq<Value>) returns (result: Result<Value, Failure>)
      requires Valid() && index < |source| && !IsSpace(source[index]) && DotToken(source, index)
      modifies this
      ensures Did(result, Items(u, source, old(index), items))
      decreases |source| - index, 2
    {
      if |items| == 0 {
        return Err(MissingHead);
      }
      index := index + 1;
      var cdr := ReadDatum();
      if cdr.Err? {
        return cdr;
      }
      SkipSpaces();
      if index >= |source| {
        return Err(UnexpectedEnd);
      }
      if source[index] != ')' {
        return Err(ExpectedToken);
      }
      index := index + 1;
      var value := cdr.value;
      var n := |items|;
      assert items[..n] == items;
      while n > 0
        invariant 0 <= n <= |items|
        invariant Pairs(items[..n], value) == Pairs(items, cdr.value)
      {
        n := n - 1;
        assert items[..n + 1][..n] == items[..n];
        value := Tuple([items[n], value]);
      }
      return Ok(value);
    }

    method ReadString() returns (result: Result<Value, Failure>)
      requires Valid() && index < |source| && source[index] == '"'
      modifies this
      ensures match StringBody(source, old(index) + 1)
              case Ok(s) => Valid() && result == Ok(Str(s.value)) && index == s.next
              case Err(e) => Valid() && result == Err(e)
    {
      index := index + 1;
      var chars := "";
      PrependNothing(StringBody(source, index));
      while true
        invariant Valid()
        invariant StringBody(source, old(index) + 1) == Prepend(chars, StringBody(source, index))
        decreases |source| - index
      {
        if index >= |source| {
          return Err(UnterminatedString);
        }
        var ch := source[index];
        ghost var rest := StringBody(source, index);
        ghost var before := chars;
        index := index + 1;
        if ch == '"' {
          assert chars + "" == chars;
          return Ok(Str(chars));
        }
        if ch != '\\' {
          chars := chars + [ch];
          PrependTwice(before, [ch], StringBody(source, index));
        } else {
          if index >= |source| {
            return Err(UnterminatedEscape);
          }
          var escaped := source[index];
          index := index + 1;
          chars := chars + [if escaped == 'n' then '\n' else escaped];
          PrependTwice(before, [Unescaped(escaped)], StringBody(source, index));
        }
      }
    }

    method ReadAtom() returns (result: Result<Value, Failure>)
      requires Valid()
      modifies this
      ensures Did(result, Atom(u, source, old(index)))
    {
      var start := index;
      while index < |source|
        invariant start <= index <= |source|
        invariant AtomEnd(source, index) == AtomEnd(source, start)
      {
        if EndsAtom(source[index]) {
          break;
        }
        index := index + 1;
      }
      if index == start {
        return Err(ExpectedDatum);
      }
      var token := source[start..index];
      if token == "#t" {
        return Ok(Bool(true));
      }
      if token == "#f" {
        return Ok(Bool(false));
      }
      if AllDigits(u, StripSigns(token)) {
        var n := ToInt(u, token);
        return if n.Some? then Ok(Int(n.value)) else Err(BadInteger);
      }
      return Ok(Str(token));
    }
  }

  /** Space before an item does not matter. */
  lemma {:induction false} ItemsAfterSpace(u: Unicode, src: string, i: nat, items: seq<Value>)
    requires i <= |src|
    ensures Items(u, src, i, items) == Items(u, src, SkipSpace(src, i), items)
  {
    SkipOnce(src, i);
  }

  lemma {:induction false} SkipOnce(src: string, i: nat)
    requires i <= |src|
    ensures SkipSpace(src, SkipSpace(src, i)) == SkipSpace(src, i)
    ensures SkipSpace(src, i) < |src| ==> !IsSpace(src[SkipSpace(src, i)])
    decreases |src| - i
  {
    if i < |src| && IsSpace(src[i]) {
      SkipOnce(src, i + 1);
    }
  }

  lemma PrependNothing(r: Reading<string>)
    ensures Prepend("", r) == r
  {
    if r.Ok? {
      assert "" + r.value.value == r.value.value;
    }
  }

  lemma PrependTwice(a: string, b: string, r: Reading<string>)
    ensures Prepend(a, Prepend(b, r)) == Prepend(a + b, r)
  {
    if r.Ok? {
      assert a + (b + r.value.value) == a + b + r.value.value;
    }
  }

  // ---------- reading back what was printed ----------

  /** `src` has `text` from position `i` up to position `j`. */
  ghost predicate Has(src: string, i: nat, j: nat, text: string) {
    i <= j <= |src| && src[i..j] == text
  }

  lemma HasSplit(src: string, i: nat, j: nat, a: string, b: string)
    requires Has(src, i, j, a + b)
    ensures Has(src, i, i + |a|, a) && Has(src, i + |a|, j, b)
  {
    assert j - i == |a| + |b|;
    assert src[i..j][..|a|] == a && src[i..j][|a|..] == b;
    assert src[i..i + |a|] == src[i..j][..|a|] && src[i + |a|..j] == src[i..j][|a|..];
  }

  lemma HasFirst(src: string, i: nat, j: nat, text: string)
    requires Has(src, i, j, text) && |text| > 0
    ensures i < |src| && src[i] == text[0]
  {
    assert src[i..j][0] == src[i];
  }

  // ---------- strings ----------

  function EscapeChar(c: char): string {
    if c == '\\' then "\\\\" else if c == '"' then "\\\"" else if c == '\n' then "\\n" else [c]
  }

  function EscapeAll(s: string): string {
    if |s| == 0 then [] else EscapeChar(s[0]) + EscapeAll(s[1..])
  }

  lemma {:induction false} ReplaceJoin(s: string, t: string, c: char, with: string)
    ensures Replace(s + t, c, with) == Replace(s, c, with) + Replace(t, c, with)
  {
    if |s| == 0 {
      assert s + t == t;
    } else {
      assert (s + t)[1..] == s[1..] + t;
      ReplaceJoin(s[1..], t, c, with);
    }
  }

  /** The three replacements one after the other escape each character once. */
  lemma {:induction false} EscapeIsPerCharacter(s: string)
    ensures Escape(s) == EscapeAll(s)
  {
    if |s| > 0 {
      var a := if s[0] == '\\' then "\\\\" else [s[0]];
      var b := Replace(a, '"', "\\\"");
      var r1 := Replace(s[1..], '\\', "\\\\");
      var r2 := Replace(r1, '"', "\\\"");
      ReplaceJoin(a, r1, '"', "\\\"");
      ReplaceJoin(b, r2, '\n', "\\n");
      EscapeOne(s[0]);
      EscapeIsPerCharacter(s[1..]);
    }
  }

  lemma EscapeOne(c: char)
    ensures Replace(Replace(if c == '\\' then "\\\\" else [c], '"', "\\\""), '\n', "\\n") == EscapeChar(c)
  {
    ReplaceOne(c, '"', "\\\"");
    ReplaceOne(c, '\n', "\\n");
    ReplaceTwo('\\', '\\', '"', "\\\"");
    ReplaceTwo('\\', '\\', '\n', "\\n");
    ReplaceTwo('\\', '"', '\n', "\\n");
  }

  lemma ReplaceOne(x: char, c: char, with: string)
    ensures Replace([x], c, with) == if x == c then with else [x]
  {
    assert [x][1..] == [];
  }

  lemma ReplaceTwo(x: char, y: char, c: char, with: string)
    requires x != c && y != c
    ensures Replace([x, y], c, with) == [x, y]
  {
    assert [x, y][1..] == [y];
    ReplaceOne(y, c, with);
  }

  lemma {:induction false} StringReadsBack(src: string, i: nat, j: nat, s: string)
    requires Has(src, i, j, EscapeAll(s) + "\"")
    ensures StringBody(src, i) == Ok(Read(s, j))
    decreases |s|
  {
    if |s| == 0 {
      assert EscapeAll(s) + "\"" == "\"";
      HasFirst(src, i, j, "\"");
    } else {
      var c, rest := s[0], EscapeAll(s[1..]) + "\"";
      assert EscapeAll(s) + "\"" == EscapeChar(c) + rest;
      HasSplit(src, i, j, EscapeChar(c), rest);
      var k := i + |EscapeChar(c)|;
      StringReadsBack(src, k, j, s[1..]);
      HasFirst(src, i, k, EscapeChar(c));
      assert |EscapeChar(c)| == 2 ==> src[i..k][1] == src[i + 1];
      assert [c] + s[1..] == s;
    }
  }

  // ---------- atoms ----------

  lemma {:induction false} AtomEndIs(src: string, i: nat, j: nat)
    requires i <= j <= |src| && forall k :: i <= k < j ==> !EndsAtom(src[k])
    requires j < |src| ==> EndsAtom(src[j])
    ensures AtomEnd(src, i) == j
    decreases j - i
  {
    if i < j {
      AtomEndIs(src, i + 1, j);
    }
  }

  lemma AtomReadsBack(u: Unicode, src: string, i: nat, j: nat, token: string, v: Value)
    requires Has(src, i, j, token) && |token| > 0 && (j < |src| ==> EndsAtom(src[j]))
    requires forall k :: 0 <= k < |token| ==> !EndsAtom(token[k])
    requires AtomValue(u, token) == Ok(v)
    ensures Atom(u, src, i) == Ok(Read(v, j))
  {
    forall k | i <= k < j ensures !EndsAtom(src[k]) {
      assert src[i..j][k - i] == src[k];
    }
    AtomEndIs(src, i, j);
  }

  lemma {:induction false} NumberOfDigits(u: Unicode, s: string)
    requires Standard(u) && forall k :: 0 <= k < |s| ==> Decimal.IsDigit(s[k])
    ensures Number(u, s) == Some(Decimal.Value(s))
  {
    if |s| > 0 {
      NumberOfDigits(u, s[..|s| - 1]);
    }
  }

  lemma IntReadsBack(u: Unicode, n: int)
    requires Standard(u)
    ensures AtomValue(u, WriteInt(n)) == Ok(Int(n))
    ensures forall k :: 0 <= k < |WriteInt(n)| ==> WriteInt(n)[k] == '-' || Decimal.IsDigit(WriteInt(n)[k])
  {
    var m := if n < 0 then -n else n;
    var digits := Decimal.Digits(m);
    NumberOfDigits(u, digits);
    Decimal.ValueOfDigits(m);
    assert StripSigns(digits) == digits;
    assert Decimal.IsDigit(digits[0]);
    if n < 0 {
      assert WriteInt(n)[1..] == digits;
    }
    assert StripSigns(WriteInt(n)) == digits;
    forall k | 0 <= k < |digits| ensures u.isDigit(digits[k]) {
      assert Decimal.IsDigit(digits[k]);
    }
    assert WriteInt(n)[0] != '#';
  }

  // ---------- datums ----------

  /** Neither space, nor a closing parenthesis, nor a dot. */
  predicate StartsDatum(c: char) {
    !IsSpace(c) && c != ')' && c != '.'
  }

  lemma WriteStartsDatum(v: Value)
    ensures StartsDatum(Write(v)[0])
  {
    match v
    case Int(n) => assert Decimal.IsDigit(Decimal.Digits(if n < 0 then -n else n)[0]);
    case _ =>
  }

  lemma AtomIsDatum(u: Unicode, src: string, i: nat, j: nat, v: Value)
    requires Has(src, i, j, Write(v)) && (j < |src| ==> EndsAtom(src[j])) && AtomValue(u, Write(v)) == Ok(v)
    requires forall k :: 0 <= k < |Write(v)| ==> !EndsAtom(Write(v)[k])
    requires Write(v)[0] != '"' && (Write(v)[0] == '#' ==> |Write(v)| > 1)
    ensures Datum(u, src, i) == Ok(Read(v, j))
  {
    HasFirst(src, i, j, Write(v));
    assert |Write(v)| > 1 ==> src[i..j][1] == src[i + 1];
    AtomReadsBack(u, src, i, j, Write(v), v);
  }

  lemma BoolIsDatum(u: Unicode, src: string, i: nat, j: nat, b: bool)
    requires Has(src, i, j, Write(Bool(b))) && (j < |src| ==> EndsAtom(src[j]))
    ensures Datum(u, src, i) == Ok(Read(Bool(b), j))
  {
    AtomIsDatum(u, src, i, j, Bool(b));
  }

  lemma IntIsDatum(u: Unicode, src: string, i: nat, j: nat, n: int)
    requires Standard(u) && Has(src, i, j, Write(Int(n))) && (j < |src| ==> EndsAtom(src[j]))
    ensures Datum(u, src, i) == Ok(Read(Int(n), j))
  {
    IntReadsBack(u, n);
    AtomIsDatum(u, src, i, j, Int(n));
  }

  lemma StrReadsBack(u: Unicode, src: string, i: nat, j: nat, s: string)
    requires Has(src, i, j, Write(Str(s)))
    ensures Datum(u, src, i) == Ok(Read(Str(s), j))
  {
    EscapeIsPerCharacter(s);
    assert Write(Str(s)) == "\"" + (EscapeAll(s) + "\"");
    HasSplit(src, i, j, "\"", EscapeAll(s) + "\"");
    HasFirst(src, i, i + 1, "\"");
    StringReadsBack(src, i + 1, j, s);
  }

  /** A printed datum is read back from anywhere in a source, provided that an atom does not run on. */
  lemma {:induction false} DatumReadsBack(u: Unicode, src: string, i: nat, j: nat, v: Value)
    requires Standard(u) && Has(src, i, j, Write(v)) && (j < |src| ==> EndsAtom(src[j]))
    ensures Datum(u, src, i) == Ok(Read(v, j))
    decreases v, 1, 0
  {
    match v
    case Bool(b) => BoolIsDatum(u, src, i, j, b);
    case Int(n) => IntIsDatum(u, src, i, j, n);
    case Str(s) => StrReadsBack(u, src, i, j, s);
    case Tuple(items) => TupleReadsBack(u, src, i, j, items);
  }

  lemma {:induction false} TupleReadsBack(u: Unicode, src: string, i: nat, j: nat, items: seq<Value>)
    requires Standard(u) && Has(src, i, j, Write(Tuple(items)))
    ensures Datum(u, src, i) == Ok(Read(Tuple(items), j))
    decreases Tuple(items), 0, 0
  {
    assert Write(Tuple(items)) == "(" + (Join(items) + ")");
    HasSplit(src, i, j, "(", Join(items) + ")");
    HasFirst(src, i, i + 1, "(");
    assert items[0..] == items && items[..0] == [];
    ItemsReadBack(u, src, i + 1, j, items, 0);
  }

  lemma ItemsStep(u: Unicode, src: string, i: nat, k: nat, v: Value, before: seq<Value>)
    requires i < |src| && !IsSpace(src[i]) && src[i] != ')' && !DotToken(src, i)
    requires i < k <= |src| && Datum(u, src, i) == Ok(Read(v, k))
    ensures Items(u, src, i, before) == Items(u, src, k, before + [v])
  {
  }

  lemma ItemsSkip(u: Unicode, src: string, i: nat, before: seq<Value>)
    requires i < |src| && src[i] == ' '
    ensures Items(u, src, i, before) == Items(u, src, i + 1, before)
  {
    assert SkipSpace(src, i) == SkipSpace(src, i + 1);
  }

  /** Where the text after the first of several items stands. */
  lemma JoinSplit(src: string, i: nat, j: nat, items: seq<Value>) returns (k: nat)
    requires |items| > 0 && Has(src, i, j, Join(items) + ")")
    ensures Has(src, i, k, Write(items[0])) && i < k < |src|
    ensures if |items| == 1 then Has(src, k, j, ")") && src[k] == ')'
            else src[k] == ' ' && Has(src, k + 1, j, Join(items[1..]) + ")")
  {
    var first := Write(items[0]);
    var rest := if |items| == 1 then ")" else " " + (Join(items[1..]) + ")");
    assert Join(items) + ")" == first + rest;
    HasSplit(src, i, j, first, rest);
    k := i + |first|;
    HasFirst(src, k, j, rest);
    if |items| > 1 {
      HasSplit(src, k, j, " ", Join(items[1..]) + ")");
    }
  }

  lemma NthSplit(src: string, i: nat, j: nat, items: seq<Value>, n: nat) returns (k: nat)
    requires n < |items| && Has(src, i, j, Join(items[n..]) + ")")
    ensures Has(src, i, k, Write(items[n])) && i < k < |src| && EndsAtom(src[k])
    ensures if n + 1 == |items| then Has(src, k, j, ")")
            else src[k] == ' ' && Has(src, k + 1, j, Join(items[n + 1..]) + ")")
  {
    assert items[n..][0] == items[n] && items[n..][1..] == items[n + 1..];
    k := JoinSplit(src, i, j, items[n..]);
  }

  /** From the n-th item of a printed list on. */
  lemma {:induction false} ItemsReadBack(u: Unicode, src: string, i: nat, j: nat, items: seq<Value>, n: nat)
    requires Standard(u) && n <= |items| && Has(src, i, j, Join(items[n..]) + ")")
    ensures Items(u, src, i, items[..n]) == Ok(Read(Tuple(items), j))
    decreases items, |items| - n, 0
  {
    if n == |items| {
      assert Join(items[n..]) + ")" == ")" && items[..n] == items;
      ListEnds(u, src, i, j, items);
    } else {
      var k := NthSplit(src, i, j, items, n);
      DatumReadsBack(u, src, i, k, items[n]);
      PastItem(u, src, i, k, j, items, n);
      if n + 1 < |items| {
        ItemsReadBack(u, src, k + 1, j, items, n + 1);
      }
    }
  }

  /** Reading the n-th item leads to the next one, or to the end of the list. */
  lemma PastItem(u: Unicode, src: string, i: nat, k: nat, j: nat, items: seq<Value>, n: nat)
    requires n < |items| && i < k < |src| && Has(src, i, k, Write(items[n]))
    requires Datum(u, src, i) == Ok(Read(items[n], k))
    requires if n + 1 == |items| then Has(src, k, j, ")") else src[k] == ' '
    ensures Items(u, src, i, items[..n])
         == if n + 1 == |items| then Ok(Read(Tuple(items), j)) else Items(u, src, k + 1, items[..n + 1])
  {
    FirstItem(u, src, i, k, items[n], items[..n]);
    assert items[..n] + [items[n]] == items[..n + 1];
    if n + 1 == |items| {
      assert items[..n + 1] == items;
      ListEnds(u, src, k, j, items);
    } else {
      ItemsSkip(u, src, k, items[..n + 1]);
    }
  }

  lemma ListEnds(u: Unicode, src: string, i: nat, j: nat, items: seq<Value>)
    requires Has(src, i, j, ")")
    ensures Items(u, src, i, items) == Ok(Read(Tuple(items), j))
  {
    HasFirst(src, i, j, ")");
  }

  lemma FirstItem(u: Unicode, src: string, i: nat, k: nat, v: Value, before: seq<Value>)
    requires Has(src, i, k, Write(v)) && i < k && Datum(u, src, i) == Ok(Read(v, k))
    ensures Items(u, src, i, before) == Items(u, src, k, before + [v])
  {
    WriteStartsDatum(v);
    HasFirst(src, i, k, Write(v));
    ItemsStep(u, src, i, k, v, before);
  }

  /** Reading what was written gives the value back, whatever characters its strings hold. */
  lemma WrittenReadsBack(u: Unicode, v: Value)
    requires Standard(u)
    ensures Parsed(u, Write(v)) == Ok(v)
    ensures Rows(u, Write(v)) == if v.Tuple? then Ok(v) else Err(NotRows)
  {
    var src := Write(v);
    assert src[0..|src|] == src;
    DatumReadsBack(u, src, 0, |src|, v);
  }

  /** Different values are written differently. */
  lemma WriteInjective(u: Unicode, v: Value, w: Value)
    requires Standard(u) && Write(v) == Write(w)
    ensures v == w
  {
    WrittenReadsBack(u, v);
    WrittenReadsBack(u, w);
  }
}
