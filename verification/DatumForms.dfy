/** The written forms of datums, from both sides: what each kind of value is printed as, and what the reader makes of
    every form it knows, also of those that are never printed. */
module DatumForms {
  import opened Basics
  import opened SchemeDatum
  import Decimal

  // ---------- printed forms ----------

  /** Booleans are #t and #f, numbers decimal, strings quoted with three characters escaped, and tuples their items
      between parentheses with a space between neighbours. */
  lemma WrittenForms(n: nat, s: string, items: seq<Value>)
    ensures Write(Bool(true)) == "#t" && Write(Bool(false)) == "#f"
    ensures Write(Int(n)) == Decimal.Digits(n) && (n > 0 ==> Write(Int(0 - n)) == "-" + Decimal.Digits(n))
    ensures Write(Str(s)) == "\"" + EscapeAll(s) + "\""
    ensures Write(Tuple([])) == "()" && (|items| == 1 ==> Write(Tuple(items)) == "(" + Write(items[0]) + ")")
    ensures |items| > 1 ==> Write(Tuple(items)) == "(" + (Write(items[0]) + " " + Join(items[1..])) + ")"
    ensures EscapeAll("\\") == "\\\\" && EscapeAll("\"") == "\\\"" && EscapeAll("\n") == "\\n"
    ensures forall c: char :: c !in "\\\"\n" ==> EscapeAll([c]) == [c]
  {
    EscapeIsPerCharacter(s);
    assert "\\"[1..] == "" && "\""[1..] == "" && "\n"[1..] == "";
    assert EscapeChar('\\') + "" == "\\\\" && EscapeChar('"') + "" == "\\\"" && EscapeChar('\n') + "" == "\\n";
    forall c: char | c !in "\\\"\n" ensures EscapeAll([c]) == [c] {
      assert [c][1..] == "" && [c] + "" == [c];
      assert "\\\"\n"[0] == '\\' && "\\\"\n"[1] == '"' && "\\\"\n"[2] == '\n';
    }
  }

  // ---------- atoms ----------

  lemma {:induction false} DigitsStrip(s: string)
    requires |s| > 0 && forall k :: 0 <= k < |s| ==> Decimal.IsDigit(s[k])
    ensures StripSigns(s) == s && s != "#t" && s != "#f"
  {
    assert Decimal.IsDigit(s[0]);
  }

  /** A run of digits, with at most one sign, is an integer. With two signs it is an error. */
  lemma NumberTokens(u: Unicode, n: nat)
    requires Standard(u)
    ensures AtomValue(u, Decimal.Digits(n)) == Ok(Int(n))
    ensures AtomValue(u, "+" + Decimal.Digits(n)) == Ok(Int(n))
    ensures AtomValue(u, "-" + Decimal.Digits(n)) == Ok(Int(0 - n))
  {
    var d := Decimal.Digits(n);
    DigitsAreNumber(u, n);
    SignedToken(u, '+', d);
    SignedToken(u, '-', d);
  }

  lemma TwoSigns(u: Unicode, n: nat)
    requires Standard(u) && u.decimal('-').None?
    ensures AtomValue(u, "+" + ("-" + Decimal.Digits(n))) == Err(BadInteger)
  {
    var d := Decimal.Digits(n);
    DigitsAreNumber(u, n);
    var rest := "-" + d;
    assert rest[0] == '-' && rest[1..] == d;
    NoNumber(u, rest);
    SignedToken(u, '+', rest);
  }

  lemma DigitsAreNumber(u: Unicode, n: nat)
    requires Standard(u)
    ensures var d := Decimal.Digits(n);
            AllDigits(u, d) && StripSigns(d) == d && Number(u, d) == Some(n) && AtomValue(u, d) == Ok(Int(n))
  {
    var d := Decimal.Digits(n);
    DigitsStrip(d);
    NumberOfDigits(u, d);
    Decimal.ValueOfDigits(n);
    forall k | 0 <= k < |d| ensures u.isDigit(d[k]) {
      assert Decimal.IsDigit(d[k]);
    }
    assert Decimal.IsDigit(d[0]);
  }

  /** One sign is dropped by the test for digits and taken by the conversion. */
  lemma SignedToken(u: Unicode, sign: char, rest: string)
    requires sign in {'+', '-'} && |rest| > 0 && AllDigits(u, StripSigns(rest))
    ensures AllDigits(u, StripSigns([sign] + rest))
    ensures AtomValue(u, [sign] + rest)
         == match Number(u, rest)
            case Some(n) => Ok(Int(if sign == '-' then -1 * n else n))
            case None => Err(BadInteger)
  {
    var token := [sign] + rest;
    assert token[0] == sign && token[1..] == rest && |token| > 1;
    assert StripSigns(token) == StripSigns(rest);
  }

  lemma {:induction false} NoNumber(u: Unicode, s: string)
    requires |s| > 0 && u.decimal(s[0]).None?
    ensures Number(u, s).None?
  {
    if |s| > 1 {
      NoNumber(u, s[..|s| - 1]);
    }
  }

  /** Any other token is a symbol. */
  lemma SymbolTokens(u: Unicode, token: string)
    ensures AtomValue(u, "#t") == Ok(Bool(true)) && AtomValue(u, "#f") == Ok(Bool(false))
    ensures token !in {"#t", "#f"} && !AllDigits(u, StripSigns(token)) ==> AtomValue(u, token) == Ok(Str(token))
    ensures AtomValue(u, token).Ok? || AtomValue(u, token) == Err(BadInteger)
  {
  }

  /** An atom runs to the next space or parenthesis, or to the end. */
  lemma {:induction false} AtomEndsAt(src: string, i: nat)
    requires i <= |src|
    ensures forall k :: i <= k < AtomEnd(src, i) ==> !(IsSpace(src[k]) || src[k] in "()")
    ensures AtomEnd(src, i) < |src| ==> IsSpace(src[AtomEnd(src, i)]) || src[AtomEnd(src, i)] in "()"
    decreases |src| - i
  {
    assert "()"[0] == '(' && "()"[1] == ')';
    if i < |src| && !EndsAtom(src[i]) {
      AtomEndsAt(src, i + 1);
    }
  }

  /** Space is skipped to the first character that is none. */
  lemma {:induction false} SpaceEndsAt(src: string, i: nat)
    requires i <= |src|
    ensures forall k :: i <= k < SkipSpace(src, i) ==> IsSpace(src[k])
    ensures SkipSpace(src, i) < |src| ==> !IsSpace(src[SkipSpace(src, i)])
    decreases |src| - i
  {
    if i < |src| && IsSpace(src[i]) {
      SpaceEndsAt(src, i + 1);
    }
  }

  // ---------- strings ----------

  /** A string goes on to the next quote that is not escaped. An escaped n is a new line, any other escaped character
      stands for itself. */
  lemma StringBodyIs(src: string, i: nat)
    requires i <= |src|
    ensures i == |src| ==> StringBody(src, i) == Err(UnterminatedString)
    ensures i < |src| && src[i] == '"' ==> StringBody(src, i) == Ok(Read("", i + 1))
    ensures i < |src| && src[i] !in "\"\\" ==> StringBody(src, i) == Prepend([src[i]], StringBody(src, i + 1))
    ensures i + 1 == |src| && src[i] == '\\' ==> StringBody(src, i) == Err(UnterminatedEscape)
    ensures i + 1 < |src| && src[i] == '\\' ==>
              StringBody(src, i)
              == Prepend(if src[i + 1] == 'n' then "\n" else [src[i + 1]], StringBody(src, i + 2))
  {
    assert "\"\\"[0] == '"' && "\"\\"[1] == '\\';
  }

  // ---------- lists ----------

  /** A dotted tail makes nested pairs: the first item is paired with what the others make of the tail. */
  lemma {:induction false} PairsNest(items: seq<Value>, last: Value)
    ensures Pairs([], last) == last
    ensures |items| > 0 ==> Pairs(items, last) == Tuple([items[0], Pairs(items[1..], last)])
  {
    if |items| > 1 {
      var n := |items| - 1;
      PairsNest(items[..n], Tuple([items[n], last]));
      assert items[..n][1..] == items[1..][..n - 1];
    } else if |items| == 1 {
      assert items[..0] == [] && items[1..] == [];
    }
  }

  /** From position `i` the datums `items` are read one after the other, none of them a dot; the last ends at `j`. */
  ghost predicate ReadsItems(u: Unicode, src: string, i: nat, items: seq<Value>, j: nat)
    requires i <= |src|
    decreases |items|
  {
    if |items| == 0 then i == j
    else
      var k := SkipSpace(src, i);
      && k < |src| && src[k] != ')' && !DotToken(src, k) && Datum(u, src, k).Ok?
      && Datum(u, src, k).value.value == items[0]
      && ReadsItems(u, src, Datum(u, src, k).value.next, items[1..], j)
  }

  /** A list is closed at once, or by one more datum after a dot. */
  ghost predicate Closes(u: Unicode, src: string, j: nat, items: seq<Value>, v: Value, next: nat) {
    j <= |src|
    && var k := SkipSpace(src, j);
       && k < |src|
       && if src[k] == ')' then v == Tuple(items) && next == k + 1
          else
            && DotToken(src, k) && |items| > 0 && Datum(u, src, k + 1).Ok?
            && var tail := Datum(u, src, k + 1).value;
               var end := SkipSpace(src, tail.next);
               end < |src| && src[end] == ')' && v == Pairs(items, tail.value) && next == end + 1
  }

  ghost predicate IsList(u: Unicode, src: string, i: nat, before: seq<Value>, v: Value, next: nat)
    requires i <= |src|
  {
    exists items, j :: ReadsItems(u, src, i, items, j) && Closes(u, src, j, before + items, v, next)
  }

  /** A list is read exactly if datums follow each other up to where it closes. */
  lemma {:induction false} ItemsIff(u: Unicode, src: string, i: nat, before: seq<Value>, v: Value, next: nat)
    requires i <= |src|
    ensures Items(u, src, i, before) == Ok(Read(v, next)) <==> IsList(u, src, i, before, v, next)
    decreases |src| - i
  {
    var k := SkipSpace(src, i);
    if k < |src| && src[k] != ')' && !DotToken(src, k) && Datum(u, src, k).Ok? {
      var d := Datum(u, src, k).value;
      ItemsIff(u, src, d.next, before + [d.value], v, next);
      MoreItems(u, src, i, before, v, next, d);
    } else {
      LastItem(u, src, i, before, v, next);
    }
  }

  /** `d` is the first datum from `i` on, of a list that goes on. */
  ghost predicate StartsWith(u: Unicode, src: string, i: nat, d: Read<Value>) {
    i <= |src|
    && var k := SkipSpace(src, i);
       k < |src| && src[k] != ')' && !DotToken(src, k) && Datum(u, src, k) == Ok(d) && d.next <= |src|
  }

  lemma MoreItems(u: Unicode, src: string, i: nat, before: seq<Value>, v: Value, next: nat, d: Read<Value>)
    requires StartsWith(u, src, i, d)
    ensures IsList(u, src, i, before, v, next) <==> IsList(u, src, d.next, before + [d.value], v, next)
  {
    if IsList(u, src, i, before, v, next) {
      DropFirst(u, src, i, before, v, next, d);
    }
    if IsList(u, src, d.next, before + [d.value], v, next) {
      AddFirst(u, src, i, before, v, next, d);
    }
  }

  lemma DropFirst(u: Unicode, src: string, i: nat, before: seq<Value>, v: Value, next: nat, d: Read<Value>)
    requires StartsWith(u, src, i, d) && IsList(u, src, i, before, v, next)
    ensures IsList(u, src, d.next, before + [d.value], v, next)
  {
    var items, j :| ReadsItems(u, src, i, items, j) && Closes(u, src, j, before + items, v, next);
    NotEmpty(u, src, i, before + items, v, next, d, items, j);
    WithoutFirst(u, src, i, d, items, j);
    Regroup(before, [d.value], items[1..]);
    ListOf(u, src, d.next, before + [d.value], items[1..], j, before + items, v, next);
  }

  lemma AddFirst(u: Unicode, src: string, i: nat, before: seq<Value>, v: Value, next: nat, d: Read<Value>)
    requires StartsWith(u, src, i, d) && IsList(u, src, d.next, before + [d.value], v, next)
    ensures IsList(u, src, i, before, v, next)
  {
    var items, j :| ReadsItems(u, src, d.next, items, j) && Closes(u, src, j, (before + [d.value]) + items, v, next);
    WithFirst(u, src, i, d, items, j);
    Regroup(before, [d.value], items);
    ListOf(u, src, i, before, [d.value] + items, j, (before + [d.value]) + items, v, next);
  }

  lemma ListOf(u: Unicode, src: string, i: nat, before: seq<Value>, items: seq<Value>, j: nat, all: seq<Value>,
               v: Value, next: nat)
    requires i <= |src| && ReadsItems(u, src, i, items, j) && all == before + items && Closes(u, src, j, all, v, next)
    ensures IsList(u, src, i, before, v, next)
  {
  }

  lemma Regroup<T>(a: seq<T>, b: seq<T>, c: seq<T>)
    ensures a + (b + c) == (a + b) + c
  {
  }

  lemma NotEmpty(u: Unicode, src: string, i: nat, all: seq<Value>, v: Value, next: nat, d: Read<Value>,
                 items: seq<Value>, j: nat)
    requires StartsWith(u, src, i, d) && ReadsItems(u, src, i, items, j) && Closes(u, src, j, all, v, next)
    ensures |items| > 0
  {
  }

  lemma WithoutFirst(u: Unicode, src: string, i: nat, d: Read<Value>, items: seq<Value>, j: nat)
    requires StartsWith(u, src, i, d) && ReadsItems(u, src, i, items, j)
    requires |items| > 0
    ensures items == [d.value] + items[1..]
    ensures ReadsItems(u, src, d.next, items[1..], j)
  {
  }

  lemma WithFirst(u: Unicode, src: string, i: nat, d: Read<Value>, items: seq<Value>, j: nat)
    requires StartsWith(u, src, i, d) && ReadsItems(u, src, d.next, items, j)
    ensures ReadsItems(u, src, i, [d.value] + items, j)
  {
    assert ([d.value] + items)[1..] == items;
  }

  lemma LastItem(u: Unicode, src: string, i: nat, before: seq<Value>, v: Value, next: nat)
    requires i <= |src|
    requires var k := SkipSpace(src, i);
             !(k < |src| && src[k] != ')' && !DotToken(src, k) && Datum(u, src, k).Ok?)
    ensures Items(u, src, i, before) == Ok(Read(v, next)) <==> IsList(u, src, i, before, v, next)
  {
    assert before + [] == before;
    if Closes(u, src, i, before, v, next) {
      assert ReadsItems(u, src, i, [], i);
    }
    if IsList(u, src, i, before, v, next) {
      var items, j :| ReadsItems(u, src, i, items, j) && Closes(u, src, j, before + items, v, next);
      assert items == [];
    }
  }

  /** What a datum is, by its first character: a list after ( or #(, a string after a quote, and otherwise an atom. */
  lemma DatumIs(u: Unicode, src: string, i: nat, v: Value, next: nat)
    requires i <= |src|
    ensures var k, r := SkipSpace(src, i), Datum(u, src, i);
            && (k == |src| ==> r == Err(UnexpectedEnd))
            && (k < |src| && src[k] == '(' ==> (r == Ok(Read(v, next)) <==> IsList(u, src, k + 1, [], v, next)))
            && (k + 1 < |src| && src[k..k + 2] == "#(" ==>
                  (r == Ok(Read(v, next)) <==> IsList(u, src, k + 2, [], v, next)))
            && (k < |src| && src[k] == ')' ==> r == Err(ExpectedDatum))
            && (k < |src| && src[k] == '"' ==>
                  (r == Ok(Read(v, next)) <==> v.Str? && StringBody(src, k + 1) == Ok(Read(v.s, next))))
  {
    var k := SkipSpace(src, i);
    if k < |src| && src[k] == '(' {
      ItemsIff(u, src, k + 1, [], v, next);
    }
    if k + 1 < |src| && src[k..k + 2] == "#(" {
      assert src[k] == src[k..k + 2][0] == '#' && src[k + 1] == src[k..k + 2][1] == '(';
      ItemsIff(u, src, k + 2, [], v, next);
    }
  }

  /** What is wrong with a list that is not read, if its items are: it ends early, has a dot without a head, or more
      than one datum after the dot. */
  lemma ListFailures(u: Unicode, src: string, i: nat, before: seq<Value>)
    requires i <= |src|
    ensures SkipSpace(src, i) == |src| ==> Items(u, src, i, before) == Err(UnexpectedEnd)
    ensures DotToken(src, SkipSpace(src, i)) && before == [] ==> Items(u, src, i, before) == Err(MissingHead)
    ensures DotToken(src, SkipSpace(src, i)) && before != [] && Datum(u, src, SkipSpace(src, i) + 1).Ok? ==>
              var end := SkipSpace(src, Datum(u, src, SkipSpace(src, i) + 1).value.next);
              && (end == |src| ==> Items(u, src, i, before) == Err(UnexpectedEnd))
              && (end < |src| && src[end] != ')' ==> Items(u, src, i, before) == Err(ExpectedToken))
  {
  }

  /** A text is one datum with space around it; anything after that is an error. Rows are tuples. */
  lemma ParsedIs(u: Unicode, src: string, v: Value)
    ensures Parsed(u, src) == Ok(v)
       <==> exists next: nat ::
              Datum(u, src, 0) == Ok(Read(v, next)) && forall k :: next <= k < |src| ==> IsSpace(src[k])
    ensures Parsed(u, src) == Err(TrailingData) <== Datum(u, src, 0).Ok?
            && exists k :: Datum(u, src, 0).value.next <= k < |src| && !IsSpace(src[k])
    ensures Rows(u, src) == Ok(v) <==> Parsed(u, src) == Ok(v) && v.Tuple?
    ensures Rows(u, src) == Err(NotRows) <== Parsed(u, src).Ok? && !Parsed(u, src).value.Tuple?
  {
    if Datum(u, src, 0).Ok? {
      SpaceEndsAt(src, Datum(u, src, 0).value.next);
    }
  }
}
