/**
 The names a printer gives to SSA values: over every run of print calls a value keeps its name,
 and distinct values get distinct names exactly when no hint in use spells another hint's
 numbered form.
 */
module SsaNames {

  /** `print_ssa_value` on a value whose `name_hint` is, at that moment, `hint`; "" is no hint. */
  datatype Call = Call(value: nat, hint: string)

  /** `_ssa_values`, `_ssa_names` and `_next_valid_name_id`. */
  datatype Naming = Naming(values: map<nat, string>, counts: map<string, nat>, next: nat)

  function Digit(n: nat): char
    requires n < 10
  {
    '0' + n as char
  }

  /** `str(n)`. */
  function Digits(n: nat): string
  {
    if n < 10 then [Digit(n)] else Digits(n / 10) + [Digit(n % 10)]
  }

  function Suffixed(hint: string, k: nat): string
  {
    if k == 0 then hint else hint + "_" + Digits(k)
  }

  function Count(s: Naming, hint: string): nat
  {
    if hint in s.counts then s.counts[hint] else 0
  }

  function Assign(s: Naming, c: Call): Naming
  {
    if c.value in s.values then s
    else if c.hint != "" then
      var k := Count(s, c.hint);
      Naming(s.values[c.value := Suffixed(c.hint, k)], s.counts[c.hint := k + 1], s.next)
    else
      Naming(s.values[c.value := Digits(s.next)], s.counts, s.next + 1)
  }

  /** The printer's tables after a run of calls. */
  function Run(calls: seq<Call>): Naming
  {
    if calls == [] then Naming(map[], map[], 0)
    else Assign(Run(calls[..|calls| - 1]), calls[|calls| - 1])
  }

  /** All that matters about a hint: it does not start with a digit. */
  predicate ValidHint(hint: string)
  {
    hint == "" || !('0' <= hint[0] <= '9')
  }

  /** What the `name_hint` setter accepts a name to start with. */
  predicate NameStart(c: char)
  {
    c in "_$.-" || 'A' <= c <= 'Z' || 'a' <= c <= 'z'
  }

  lemma AcceptedIsValid(hint: string)
    requires hint == "" || NameStart(hint[0])
    ensures ValidHint(hint)
  {
  }

  predicate ValidCalls(calls: seq<Call>)
  {
    forall c :: c in calls ==> ValidHint(c.hint)
  }

  // ----- the spelling of names -----

  lemma {:induction false} DigitsSpelling(n: nat)
    ensures Digits(n) != []
    ensures forall c :: c in Digits(n) ==> '0' <= c <= '9'
  {
    if n >= 10 {
      DigitsSpelling(n / 10);
    }
  }

  lemma {:induction false} DigitsInjective(m: nat, n: nat)
    requires Digits(m) == Digits(n)
    ensures m == n
  {
    DigitsSpelling(m / 10);
    DigitsSpelling(n / 10);
    var last := |Digits(m)| - 1;
    assert Digits(m)[last] == Digits(n)[last];
    if m >= 10 && n >= 10 {
      assert Digits(m)[..last] == Digits(m / 10) && Digits(n)[..last] == Digits(n / 10);
      DigitsInjective(m / 10, n / 10);
    }
  }

  /** Digits contain no underscore. */
  lemma NoLaterUnderscore(hint: string, k: nat, i: nat)
    requires |hint| < i < |hint + "_" + Digits(k)|
    ensures (hint + "_" + Digits(k))[i] != '_'
  {
    DigitsSpelling(k);
    assert (hint + "_" + Digits(k))[i] == Digits(k)[i - |hint| - 1];
  }

  /** So a numbered name splits in one way. */
  lemma SuffixUnique(g: string, j: nat, h: string, k: nat)
    requires g + "_" + Digits(j) == h + "_" + Digits(k)
    ensures g == h && j == k
  {
    var name := g + "_" + Digits(j);
    assert name[|g|] == '_' && (h + "_" + Digits(k))[|h|] == '_';
    if |g| < |h| {
      NoLaterUnderscore(g, j, |h|);
    } else if |h| < |g| {
      NoLaterUnderscore(h, k, |g|);
    } else {
      assert name[|g| + 1..] == Digits(j) && name[|h| + 1..] == Digits(k);
      assert name[..|g|] == g && name[..|h|] == h;
      DigitsInjective(j, k);
    }
  }

  // ----- where a name comes from -----

  datatype Origin = Numbered(n: nat) | Hinted(hint: string, k: nat)

  function Text(o: Origin): string
  {
    match o
    case Numbered(n) => Digits(n)
    case Hinted(hint, k) => Suffixed(hint, k)
  }

  ghost predicate Usable(o: Origin)
  {
    o.Hinted? ==> o.hint != "" && ValidHint(o.hint)
  }

  /** `p` is a bare hint that spells the numbered name `o`. */
  ghost predicate Spells(p: Origin, o: Origin)
  {
    p.Hinted? && o.Hinted? && p.k == 0 && o.k > 0 && p.hint == Suffixed(o.hint, o.k)
  }

  /** The only way for two origins to share a text. */
  lemma SameTextExactly(o: Origin, p: Origin)
    requires Usable(o) && Usable(p)
    ensures Text(o) == Text(p) <==> o == p || Spells(o, p) || Spells(p, o)
  {
    if Text(o) == Text(p) && o != p {
      match (o, p)
      case (Numbered(m), Numbered(n)) => DigitsInjective(m, n);
      case (Hinted(g, j), Hinted(h, k)) =>
        if j > 0 && k > 0 {
          SuffixUnique(g, j, h, k);
        }
      case (Numbered(m), Hinted(h, k)) => NumberIsNoHint(m, h, k);
      case (Hinted(h, k), Numbered(m)) => NumberIsNoHint(m, h, k);
    }
  }

  lemma NumberIsNoHint(m: nat, hint: string, k: nat)
    requires hint != "" && ValidHint(hint)
    ensures Digits(m) != Suffixed(hint, k)
  {
    DigitsSpelling(m);
    assert Suffixed(hint, k)[0] == hint[0];
    assert Digits(m)[0] in Digits(m);
  }

  function Origins(calls: seq<Call>): map<nat, Origin>
  {
    if calls == [] then map[]
    else
      var before, c := calls[..|calls| - 1], calls[|calls| - 1];
      var s := Run(before);
      if c.value in s.values then Origins(before)
      else if c.hint != "" then Origins(before)[c.value := Hinted(c.hint, Count(s, c.hint))]
      else Origins(before)[c.value := Numbered(s.next)]
  }

  /** Every entry of the tables is accounted for, and no origin is used twice. */
  ghost predicate Explains(origins: map<nat, Origin>, s: Naming)
  {
    && origins.Keys == s.values.Keys
    && (forall v :: v in origins ==> Usable(origins[v]) && s.values[v] == Text(origins[v]) && Issued(s, origins[v]))
    && (forall v, w :: v in origins && w in origins && origins[v] == origins[w] ==> v == w)
    && (forall o :: Issued(s, o) ==> exists v :: v in origins && origins[v] == o)
  }

  ghost predicate Issued(s: Naming, o: Origin)
  {
    match o
    case Numbered(n) => n < s.next
    case Hinted(hint, k) => k < Count(s, hint)
  }

  lemma {:induction false} RunExplained(calls: seq<Call>)
    requires ValidCalls(calls)
    ensures Explains(Origins(calls), Run(calls))
  {
    if calls != [] {
      RunExplained(calls[..|calls| - 1]);
      ExplainsStep(calls);
    }
  }

  lemma ExplainsStep(calls: seq<Call>)
    requires calls != [] && ValidCalls(calls)
    requires Explains(Origins(calls[..|calls| - 1]), Run(calls[..|calls| - 1]))
    ensures Explains(Origins(calls), Run(calls))
  {
    var before, c := calls[..|calls| - 1], calls[|calls| - 1];
    var s := Run(before);
    if c.value !in s.values {
      var o := if c.hint != "" then Hinted(c.hint, Count(s, c.hint)) else Numbered(s.next);
      IssuesOne(s, c, o);
      ExplainsMore(Origins(before), s, c.value, o, Run(calls));
    }
  }

  lemma IssuesOne(s: Naming, c: Call, o: Origin)
    requires c.value !in s.values
    requires o == if c.hint != "" then Hinted(c.hint, Count(s, c.hint)) else Numbered(s.next)
    ensures !Issued(s, o) && Assign(s, c).values == s.values[c.value := Text(o)]
    ensures forall p :: Issued(Assign(s, c), p) <==> Issued(s, p) || p == o
  {
  }

  /** A value gets an origin that was not yet issued. */
  lemma ExplainsMore(was: map<nat, Origin>, s: Naming, v: nat, o: Origin, s': Naming)
    requires Explains(was, s) && v !in was && Usable(o) && !Issued(s, o)
    requires s'.values == s.values[v := Text(o)]
    requires forall p :: Issued(s', p) <==> Issued(s, p) || p == o
    ensures Explains(was[v := o], s')
  {
    var now := was[v := o];
    forall p | Issued(s', p)
      ensures exists w :: w in now && now[w] == p
    {
      if p == o {
        assert now[v] == p;
      } else {
        var w :| w in was && was[w] == p;
        assert now[w] == p;
      }
    }
  }

  // ----- names stay, and are distinct -----

  lemma {:induction false} NamesStay(calls: seq<Call>, n: nat)
    requires n <= |calls|
    ensures forall v :: v in Run(calls[..n]).values ==> v in Run(calls).values && Run(calls).values[v] == Run(calls[..n]).values[v]
    decreases |calls| - n
  {
    if n == |calls| {
      assert calls[..n] == calls;
    } else {
      NamesStay(calls, n + 1);
      assert calls[..n + 1][..n] == calls[..n];
    }
  }

  /** The text of the i-th call. */
  function Printed(calls: seq<Call>, i: nat): string
    requires i < |calls|
  {
    PrintedValueNamed(calls[..i + 1]);
    "%" + Run(calls[..i + 1]).values[calls[i].value]
  }

  lemma PrintedValueNamed(calls: seq<Call>)
    requires calls != []
    ensures calls[|calls| - 1].value in Run(calls).values
  {
  }

  lemma PrintedIsFinal(calls: seq<Call>, i: nat)
    requires i < |calls|
    ensures calls[i].value in Run(calls).values && Printed(calls, i) == "%" + Run(calls).values[calls[i].value]
  {
    var v, before := calls[i].value, Run(calls[..i + 1]).values;
    assert v in before by {
      PrintedValueNamed(calls[..i + 1]);
    }
    assert v in Run(calls).values && Run(calls).values[v] == before[v] by {
      NamesStay(calls, i + 1);
    }
  }

  /** A further call leaves earlier texts, and prints the name then in the table. */
  lemma PrintedGrows(calls: seq<Call>, c: Call)
    ensures Run(calls + [c]) == Assign(Run(calls), c)
    ensures forall i :: 0 <= i < |calls| ==> Printed(calls + [c], i) == Printed(calls, i)
    ensures c.value in Run(calls + [c]).values && Printed(calls + [c], |calls|) == "%" + Run(calls + [c]).values[c.value]
  {
    var more := calls + [c];
    assert more[..|more| - 1] == calls && more[..|calls| + 1] == more;
    forall i | 0 <= i < |calls|
      ensures Printed(more, i) == Printed(calls, i)
    {
      assert more[..i + 1] == calls[..i + 1];
    }
  }

  // ----- which names are printed -----

  predicate Decimal(text: string)
  {
    forall i :: 0 <= i < |text| ==> '0' <= text[i] <= '9'
  }

  /** The number that a decimal numeral denotes. */
  function NumberOf(text: string): nat
    requires Decimal(text)
  {
    if text == [] then 0
    else 10 * NumberOf(text[..|text| - 1]) + (text[|text| - 1] as int - '0' as int)
  }

  /** A number is written in decimal, without leading zeros. */
  lemma {:induction false} DigitsAreDecimal(n: nat)
    ensures Digits(n) != [] && Decimal(Digits(n)) && NumberOf(Digits(n)) == n
    ensures n > 0 ==> Digits(n)[0] != '0'
  {
    if n >= 10 {
      DigitsAreDecimal(n / 10);
      assert Digits(n)[..|Digits(n)| - 1] == Digits(n / 10);
    }
  }

  /** Call `i` is the first on its value. */
  predicate FirstCall(calls: seq<Call>, i: nat)
    requires i < |calls|
  {
    forall j :: 0 <= j < i ==> calls[j].value != calls[i].value
  }

  /** How many values were first printed with that hint in the first `n` calls. */
  function NamedSoFar(calls: seq<Call>, n: nat, hint: string): nat
    requires n <= |calls|
  {
    if n == 0 then 0
    else NamedSoFar(calls, n - 1, hint) + if FirstCall(calls, n - 1) && calls[n - 1].hint == hint then 1 else 0
  }

  lemma {:induction false} TablesCount(calls: seq<Call>, n: nat)
    requires n <= |calls|
    ensures var s := Run(calls[..n]);
            && (forall v :: v in s.values <==> exists j :: 0 <= j < n && calls[j].value == v)
            && s.next == NamedSoFar(calls, n, "")
            && forall hint :: hint != "" ==> Count(s, hint) == NamedSoFar(calls, n, hint)
    decreases n
  {
    if n > 0 {
      TablesCount(calls, n - 1);
      assert calls[..n][..n - 1] == calls[..n - 1];
      var s, c := Run(calls[..n - 1]), calls[n - 1];
      assert c.value in s.values <==> !FirstCall(calls, n - 1);
      forall v ensures v in Assign(s, c).values <==> exists j :: 0 <= j < n && calls[j].value == v {
        assert v in Assign(s, c).values <==> v in s.values || v == c.value;
      }
    }
  }

  lemma RunStep(calls: seq<Call>, i: nat)
    requires i < |calls|
    ensures Run(calls[..i + 1]) == Assign(Run(calls[..i]), calls[i])
  {
    assert calls[..i + 1][..i] == calls[..i];
  }

  /**
   The first time a value is printed without a hint it gets the number of values so printed before;
   with a hint, the hint itself, or the hint followed by that number once the hint is taken.
   */
  lemma FirstPrinted(calls: seq<Call>, i: nat)
    requires i < |calls| && FirstCall(calls, i)
    ensures var hint := calls[i].hint;
            var k := NamedSoFar(calls, i, hint);
            Printed(calls, i) == "%" + if hint == "" then Digits(k) else if k == 0 then hint else hint + "_" + Digits(k)
  {
    TablesCount(calls, i);
    RunStep(calls, i);
    assert calls[i].value !in Run(calls[..i]).values;
  }

  /** And every later time it is printed as the first time. */
  lemma PrintedAgain(calls: seq<Call>, i: nat, j: nat)
    requires i <= j < |calls| && calls[i].value == calls[j].value
    ensures Printed(calls, j) == Printed(calls, i)
  {
    PrintedIsFinal(calls, i);
    PrintedIsFinal(calls, j);
  }

  /** Some hint in use spells a numbered name that another hint has been given. */
  ghost predicate Clash(s: Naming)
  {
    exists h, k :: SpelledBy(s, h, k)
  }

  ghost predicate SpelledBy(s: Naming, h: string, k: nat)
  {
    1 <= k < Count(s, h) && Count(s, Suffixed(h, k)) > 0
  }

  /** Equal texts in the output always stand for the same value, and the same value for equal texts. */
  ghost predicate Faithful(calls: seq<Call>)
  {
    forall i, j :: 0 <= i < |calls| && 0 <= j < |calls| ==>
      (Printed(calls, i) == Printed(calls, j) <==> calls[i].value == calls[j].value)
  }

  /** Over any run, names identify values exactly when no hint in use spells a numbered name in use. */
  lemma FaithfulExactly(calls: seq<Call>)
    requires ValidCalls(calls)
    ensures Faithful(calls) <==> !Clash(Run(calls))
  {
    if Clash(Run(calls)) {
      ClashIsUnfaithful(calls);
    } else {
      forall i, j | 0 <= i < |calls| && 0 <= j < |calls|
        ensures Printed(calls, i) == Printed(calls, j) <==> calls[i].value == calls[j].value
      {
        PrintedIsFinal(calls, i);
        PrintedIsFinal(calls, j);
        NoClashNamesDistinct(calls, calls[i].value, calls[j].value);
      }
    }
  }

  lemma NoClashNamesDistinct(calls: seq<Call>, v: nat, w: nat)
    requires ValidCalls(calls) && !Clash(Run(calls))
    requires v in Run(calls).values && w in Run(calls).values
    ensures "%" + Run(calls).values[v] == "%" + Run(calls).values[w] <==> v == w
  {
    RunExplained(calls);
    var s := Run(calls);
    var o, p := Origins(calls)[v], Origins(calls)[w];
    assert ("%" + s.values[v])[1..] == s.values[v] && ("%" + s.values[w])[1..] == s.values[w];
    SameTextExactly(o, p);
    SpellingIsClash(s, o, p);
    SpellingIsClash(s, p, o);
  }

  lemma SpellingIsClash(s: Naming, o: Origin, p: Origin)
    ensures Issued(s, o) && Issued(s, p) && Spells(p, o) ==> Clash(s)
  {
    if Issued(s, o) && Issued(s, p) && Spells(p, o) {
      assert SpelledBy(s, o.hint, o.k);
    }
  }

  lemma ClashIsUnfaithful(calls: seq<Call>)
    requires ValidCalls(calls) && Clash(Run(calls))
    ensures !Faithful(calls)
  {
    var s := Run(calls);
    var h, k :| SpelledBy(s, h, k);
    RunExplained(calls);
    var o, p := Hinted(h, k), Hinted(Suffixed(h, k), 0);
    assert Issued(s, o) && Issued(s, p);
    var v :| v in Origins(calls) && Origins(calls)[v] == o;
    var w :| w in Origins(calls) && Origins(calls)[w] == p;
    var i, j := CallOf(calls, v), CallOf(calls, w);
    PrintedIsFinal(calls, i);
    PrintedIsFinal(calls, j);
    assert h != Suffixed(h, k);
  }

  lemma {:induction false} ValuesWereCalled(calls: seq<Call>, v: nat)
    requires v in Run(calls).values
    ensures exists i :: 0 <= i < |calls| && calls[i].value == v
  {
    var n := |calls| - 1;
    if calls[n].value != v {
      ValuesWereCalled(calls[..n], v);
    }
  }

  ghost function CallOf(calls: seq<Call>, v: nat): (i: nat)
    requires v in Run(calls).values
    ensures i < |calls| && calls[i].value == v
  {
    ValuesWereCalled(calls, v);
    var i :| 0 <= i < |calls| && calls[i].value == v;
    i
  }

  // ----- which vocabularies of hints are safe -----

  ghost predicate Draws(calls: seq<Call>, hints: set<string>)
  {
    forall c :: c in calls ==> c.hint == "" || c.hint in hints
  }

  /** No hint is another hint followed by `_` and a positive number. */
  ghost predicate Unambiguous(hints: set<string>)
  {
    forall h, k: nat :: h in hints && k > 0 ==> Suffixed(h, k) !in hints
  }

  lemma {:induction false} CountsAreDrawn(calls: seq<Call>, hints: set<string>)
    requires Draws(calls, hints)
    ensures forall h :: Count(Run(calls), h) > 0 ==> h in hints
  {
    if calls != [] {
      CountsAreDrawn(calls[..|calls| - 1], hints);
    }
  }

  /** `n` different values, all with the same hint. */
  function Repeated(hint: string, n: nat): seq<Call>
  {
    seq(n, i requires 0 <= i < n => Call(i, hint))
  }

  lemma {:induction false} RepeatedCounts(hint: string, n: nat)
    requires hint != ""
    ensures Count(Run(Repeated(hint, n)), hint) == n
    ensures forall v :: v in Run(Repeated(hint, n)).values ==> v < n
  {
    if n > 0 {
      RepeatedCounts(hint, n - 1);
      assert Repeated(hint, n)[..n - 1] == Repeated(hint, n - 1);
    }
  }

  lemma AmbiguousRun(h: string, k: nat) returns (calls: seq<Call>)
    requires h != "" && k > 0
    ensures Draws(calls, {h, Suffixed(h, k)})
    ensures Clash(Run(calls))
  {
    calls := Repeated(h, k + 1) + [Call(k + 1, Suffixed(h, k))];
    RepeatedCounts(h, k + 1);
    assert calls[..k + 1] == Repeated(h, k + 1);
    assert h != Suffixed(h, k) && Suffixed(h, k) != "";
    assert SpelledBy(Run(calls), h, k);
  }

  lemma SafeHintsExactly(hints: set<string>)
    requires forall h :: h in hints ==> h != "" && ValidHint(h)
    ensures (forall calls :: Draws(calls, hints) ==> Faithful(calls)) <==> Unambiguous(hints)
  {
    if Unambiguous(hints) {
      forall calls | Draws(calls, hints)
        ensures Faithful(calls)
      {
        CountsAreDrawn(calls, hints);
        FaithfulExactly(calls);
      }
    } else {
      var h, k: nat :| h in hints && k > 0 && Suffixed(h, k) in hints;
      var calls := AmbiguousRun(h, k);
      FaithfulExactly(calls);
      assert Draws(calls, hints) && !Faithful(calls);
    }
  }

  // ----- the printer -----

  class Printer {
    var ssaValues: map<nat, string>
    var ssaNames: map<string, nat>
    var nextValidNameId: nat
    var out: seq<string>
    ghost var calls: seq<Call>

    /** The tables are those of the calls made so far, and so is every text printed. */
    ghost predicate Valid()
      reads this
    {
      && Tables() == Run(calls)
      && |out| == |calls|
      && forall i :: 0 <= i < |out| ==> out[i] == Printed(calls, i)
    }

    constructor ()
      ensures Valid() && calls == []
    {
      ssaValues, ssaNames, nextValidNameId, out, calls := map[], map[], 0, [], [];
    }

    method GetNewValidNameId() returns (id: string)
      modifies this`nextValidNameId
      ensures nextValidNameId == old(nextValidNameId) + 1 && id == Digits(old(nextValidNameId))
    {
      nextValidNameId := nextValidNameId + 1;
      id := Digits(nextValidNameId - 1);
    }

    function Tables(): Naming
      reads this
    {
      Naming(ssaValues, ssaNames, nextValidNameId)
    }

    /** The naming part of `print_ssa_value`. */
    method NameValue(c: Call) returns (name: string)
      modifies this`ssaValues, this`ssaNames, this`nextValidNameId
      ensures Tables() == Assign(old(Tables()), c)
      ensures c.value in ssaValues && name == ssaValues[c.value]
    {
      if c.value in ssaValues {
        name := ssaValues[c.value];
      } else if c.hint != "" {
        var index := if c.hint in ssaNames then ssaNames[c.hint] else 0;
        var suffix := if index != 0 then "_" + Digits(index) else "";
        name := c.hint + suffix;
        assert name == Suffixed(c.hint, index);
        ssaValues := ssaValues[c.value := name];
        ssaNames := ssaNames[c.hint := index + 1];
      } else {
        name := GetNewValidNameId();
        ssaValues := ssaValues[c.value := name];
      }
    }

    method PrintSsaValue(c: Call)
      requires Valid()
      modifies this
      ensures Valid() && calls == old(calls) + [c]
      ensures |out| == |old(out)| + 1 && out[..|old(out)|] == old(out)
    {
      PrintedGrows(calls, c);
      var name := NameValue(c);
      out := out + ["%" + name];
      calls := calls + [c];
    }

    /** Names identify values in everything printed so far, exactly when no clash has come up. */
    lemma OutputFaithfulExactly()
      requires Valid() && ValidCalls(calls)
      ensures (forall i, j :: 0 <= i < |out| && 0 <= j < |out| ==> (out[i] == out[j] <==> calls[i].value == calls[j].value))
          <==> !Clash(Run(calls))
    {
      FaithfulExactly(calls);
      if forall i, j :: 0 <= i < |out| && 0 <= j < |out| ==> (out[i] == out[j] <==> calls[i].value == calls[j].value) {
        forall i, j | 0 <= i < |calls| && 0 <= j < |calls|
          ensures Printed(calls, i) == Printed(calls, j) <==> calls[i].value == calls[j].value
        {
          assert out[i] == Printed(calls, i) && out[j] == Printed(calls, j);
        }
      }
    }
  }
}
