/** compareValues and toBool of cypher_exec.go, over an arbitrary rendering `fmt.Sprint`. */
module Values {
  import opened Types

  /** strings.Compare: byte-wise, shorter first. */
  function CompareStr(a: Str, b: Str): (c: int)
    ensures -1 <= c <= 1
  {
    if a == [] && b == [] then 0
    else if a == [] then -1
    else if b == [] then 1
    else if a[0] < b[0] then -1
    else if a[0] > b[0] then 1
    else CompareStr(a[1..], b[1..])
  }

  function CompareReal(a: real, b: real): int {
    if a < b then -1 else if a > b then 1 else 0
  }

  function Compare(render: Value -> Str, a: Value, b: Value): (c: int)
    ensures -1 <= c <= 1
  {
    if a.Nil? && b.Nil? then 0
    else if a.Nil? then -1
    else if b.Nil? then 1
    else if a.Num? && b.Num? then CompareReal(a.num, b.num)
    else if a.Text? && b.Text? then CompareStr(a.str, b.str)
    else if a.Bool? && b.Bool? then (if a.flag == b.flag then 0 else if !a.flag then -1 else 1)
    else CompareStr(render(a), render(b))
  }

  function ToBool(v: Value): bool {
    match v
    case Nil => false
    case Bool(b) => b
    case Num(k, n) => if k == Int64 || k == Float64 then n != 0.0 else true
    case Text(s) => s != []
    case Other(_) => true
  }

  datatype Kind = Numbers | Strings | Booleans | Others

  /** nil, or a value of the one kind. */
  predicate OfKind(k: Kind, v: Value) {
    match v
    case Nil => true
    case Num(_, _) => k == Numbers
    case Text(_) => k == Strings
    case Bool(_) => k == Booleans
    case Other(_) => k == Others
  }

  lemma {:induction false} StrAntisymmetric(a: Str, b: Str)
    ensures CompareStr(a, b) == -CompareStr(b, a)
    ensures CompareStr(a, b) == 0 <==> a == b
  {
    if a != [] && b != [] {
      StrAntisymmetric(a[1..], b[1..]);
      if a[0] == b[0] {
        assert a == [a[0]] + a[1..] && b == [b[0]] + b[1..];
      }
    }
  }

  lemma {:induction false} StrTransitive(a: Str, b: Str, c: Str)
    requires CompareStr(a, b) <= 0 && CompareStr(b, c) <= 0
    ensures CompareStr(a, c) <= 0
  {
    if a != [] && b != [] && c != [] && a[0] == b[0] == c[0] {
      StrTransitive(a[1..], b[1..], c[1..]);
    }
  }

  /** Swapping the operands flips the sign, whatever the kinds. */
  lemma CompareAntisymmetric(render: Value -> Str, a: Value, b: Value)
    ensures Compare(render, a, b) == -Compare(render, b, a)
  {
    if a.Text? && b.Text? {
      StrAntisymmetric(a.str, b.str);
    }
    StrAntisymmetric(render(a), render(b));
  }

  /** On nil and one kind the comparison is a total preorder. */
  lemma CompareTransitive(render: Value -> Str, k: Kind, a: Value, b: Value, c: Value)
    requires OfKind(k, a) && OfKind(k, b) && OfKind(k, c)
    requires Compare(render, a, b) <= 0 && Compare(render, b, c) <= 0
    ensures Compare(render, a, c) <= 0
  {
    if a.Text? && b.Text? && c.Text? {
      StrTransitive(a.str, b.str, c.str);
    }
    if a.Other? && b.Other? && c.Other? {
      StrTransitive(render(a), render(b), render(c));
    }
  }

  // ---- what the comparison says ---------------------------------------------------------------------

  /** `s` and `t` agree on `k` bytes, after which `s` ends or has the smaller byte. */
  ghost predicate PartAt(s: Str, t: Str, k: nat) {
    k <= |s| && k < |t| && s[..k] == t[..k] && (k == |s| || s[k] < t[k])
  }

  /** Byte-wise order: decided by the first difference, a proper prefix first. */
  ghost predicate StrSmaller(s: Str, t: Str) {
    exists k: nat :: PartAt(s, t, k)
  }

  lemma {:induction false} PartsHere(s: Str, t: Str)
    requires CompareStr(s, t) < 0
    ensures StrSmaller(s, t)
  {
    if s == [] || s[0] != t[0] {
      assert PartAt(s, t, 0);
    } else {
      PartsHere(s[1..], t[1..]);
      var k: nat :| PartAt(s[1..], t[1..], k);
      assert s[..k + 1] == [s[0]] + s[1..][..k] && t[..k + 1] == [t[0]] + t[1..][..k];
      assert PartAt(s, t, k + 1);
    }
  }

  lemma {:induction false} PartDecides(s: Str, t: Str, k: nat)
    requires PartAt(s, t, k)
    ensures CompareStr(s, t) < 0
    decreases k
  {
    if k > 0 {
      assert s[0] == s[..k][0] && t[0] == t[..k][0];
      assert s[1..][..k - 1] == s[..k][1..] && t[1..][..k - 1] == t[..k][1..];
      PartDecides(s[1..], t[1..], k - 1);
    }
  }

  lemma StrCompareMeans(s: Str, t: Str)
    ensures CompareStr(s, t) < 0 <==> StrSmaller(s, t)
    ensures CompareStr(s, t) == 0 <==> s == t
    ensures CompareStr(s, t) > 0 <==> StrSmaller(t, s)
  {
    StrAntisymmetric(s, t);
    if CompareStr(s, t) < 0 {
      PartsHere(s, t);
    }
    if CompareStr(t, s) < 0 {
      PartsHere(t, s);
    }
    if k: nat :| PartAt(s, t, k) {
      PartDecides(s, t, k);
    }
    if k: nat :| PartAt(t, s, k) {
      PartDecides(t, s, k);
    }
  }

  /**
   nil before everything else, numbers by their value, strings byte by byte, false before
   true, and values of different kinds as they print.
   */
  ghost predicate Smaller(render: Value -> Str, a: Value, b: Value) {
    match (a, b)
    case (_, Nil) => false
    case (Nil, _) => true
    case (Num(_, x), Num(_, y)) => x < y
    case (Text(s), Text(t)) => StrSmaller(s, t)
    case (Bool(f), Bool(g)) => !f && g
    case _ => StrSmaller(render(a), render(b))
  }

  /** Equal numbers of whatever type, equal strings, equal booleans, nil and nil; otherwise equal prints. */
  ghost predicate Equals(render: Value -> Str, a: Value, b: Value) {
    match (a, b)
    case (Num(_, x), Num(_, y)) => x == y
    case (Text(s), Text(t)) => s == t
    case (Bool(f), Bool(g)) => f == g
    case _ => if a.Nil? || b.Nil? then a == b else render(a) == render(b)
  }

  lemma CompareMeans(render: Value -> Str, a: Value, b: Value)
    ensures Compare(render, a, b) < 0 <==> Smaller(render, a, b)
    ensures Compare(render, a, b) == 0 <==> Equals(render, a, b)
    ensures Compare(render, a, b) > 0 <==> Smaller(render, b, a)
  {
    StrCompareMeans(render(a), render(b));
    if a.Text? && b.Text? {
      StrCompareMeans(a.str, b.str);
    }
  }

  // ---- one kind together with strings --------------------------------------------------------------

  /** Strings print as themselves. */
  ghost predicate TextsPlain(render: Value -> Str) {
    forall s {:trigger Text(s)} :: render(Text(s)) == s
  }

  lemma PrintsItself(render: Value -> Str, v: Value)
    requires TextsPlain(render)
    ensures v.Text? ==> render(v) == v.str
  {
    if v.Text? {
      assert v == Text(v.str);
    }
  }

  /** Comparing two values of the set gives what comparing their printed forms gives. */
  ghost predicate PrintsInOrder(render: Value -> Str, dom: iset<Value>) {
    forall a, b {:trigger Compare(render, a, b)} :: a in dom && b in dom && !a.Nil? && !b.Nil? ==>
      Compare(render, a, b) == CompareStr(render(a), render(b))
  }

  ghost function WithTexts(dom: iset<Value>): iset<Value> {
    iset v: Value | v.Nil? || v.Text? || v in dom
  }

  ghost predicate TransitiveOn(render: Value -> Str, dom: iset<Value>) {
    forall a, b, c {:trigger Compare(render, a, b), Compare(render, b, c)} :: a in dom && b in dom && c in dom ==>
      (Compare(render, a, b) <= 0 && Compare(render, b, c) <= 0 ==> Compare(render, a, c) <= 0)
  }

  /** Among values that print in order and strings, the comparison is that of the printed forms. */
  lemma ComparesAsText(render: Value -> Str, dom: iset<Value>, a: Value, b: Value)
    requires TextsPlain(render) && PrintsInOrder(render, dom) && a in WithTexts(dom) && b in WithTexts(dom) &&
             !a.Nil? && !b.Nil?
    ensures Compare(render, a, b) == CompareStr(render(a), render(b))
  {
    PrintsItself(render, a);
    PrintsItself(render, b);
  }

  lemma TextColumnTransitive(render: Value -> Str, dom: iset<Value>, a: Value, b: Value, c: Value)
    requires TextsPlain(render) && PrintsInOrder(render, dom)
    requires a in WithTexts(dom) && b in WithTexts(dom) && c in WithTexts(dom)
    requires Compare(render, a, b) <= 0 && Compare(render, b, c) <= 0
    ensures Compare(render, a, c) <= 0
  {
    if !a.Nil? && !b.Nil? && !c.Nil? {
      ComparesAsText(render, dom, a, b);
      ComparesAsText(render, dom, b, c);
      ComparesAsText(render, dom, a, c);
      StrTransitive(render(a), render(b), render(c));
    }
  }

  /**
   The general cycle: two values in one order by kind and not in that order when printed
   are joined into a cycle by the string that prints like the larger one.
   */
  lemma TextClosesCycle(render: Value -> Str, a: Value, b: Value)
    requires TextsPlain(render) && !a.Nil? && !b.Nil?
    requires Compare(render, a, b) < 0 && CompareStr(render(b), render(a)) <= 0
    ensures var t := Text(render(b));
            Compare(render, b, t) <= 0 && Compare(render, t, a) <= 0 && Compare(render, b, a) > 0
  {
    var t := Text(render(b));
    assert render(t) == render(b);
    StrAntisymmetric(render(b), render(b));
    CompareAntisymmetric(render, a, b);
    PrintsItself(render, a);
    PrintsItself(render, b);
  }

  /** Two values that compare equal but print differently: one of the two strings they print as breaks transitivity. */
  lemma TextSplitsTie(render: Value -> Str, a: Value, b: Value)
    requires TextsPlain(render) && !a.Nil? && !b.Nil?
    requires Compare(render, a, b) == 0 && CompareStr(render(a), render(b)) < 0
    ensures var t := Text(render(a));
            Compare(render, b, a) <= 0 && Compare(render, a, t) <= 0 && Compare(render, b, t) > 0
  {
    var t := Text(render(a));
    assert render(t) == render(a);
    StrAntisymmetric(render(a), render(a));
    StrAntisymmetric(render(a), render(b));
    CompareAntisymmetric(render, a, b);
    PrintsItself(render, a);
    PrintsItself(render, b);
  }

  lemma NotTransitiveFrom(render: Value -> Str, dom: iset<Value>, a: Value, b: Value)
    requires TextsPlain(render) && a in dom && b in dom && !a.Nil? && !b.Nil?
    requires Compare(render, a, b) != CompareStr(render(a), render(b))
    ensures !TransitiveOn(render, WithTexts(dom))
  {
    CompareAntisymmetric(render, a, b);
    StrAntisymmetric(render(a), render(b));
    var w := WithTexts(dom);
    assert Text(render(a)) in w && Text(render(b)) in w && a in w && b in w;
    if Compare(render, a, b) < 0 {
      TextClosesCycle(render, a, b);
    } else if Compare(render, a, b) > 0 {
      TextClosesCycle(render, b, a);
    } else if CompareStr(render(a), render(b)) < 0 {
      TextSplitsTie(render, a, b);
    } else {
      TextSplitsTie(render, b, a);
    }
  }

  /**
   On nil, the strings and any other set of values, the comparison is transitive if and
   only if those values compare as they print.
   */
  lemma TransitiveWithTextsExactly(render: Value -> Str, dom: iset<Value>)
    requires TextsPlain(render)
    ensures TransitiveOn(render, WithTexts(dom)) <==> PrintsInOrder(render, dom)
  {
    if PrintsInOrder(render, dom) {
      forall a, b, c | a in WithTexts(dom) && b in WithTexts(dom) && c in WithTexts(dom) &&
          Compare(render, a, b) <= 0 && Compare(render, b, c) <= 0
        ensures Compare(render, a, c) <= 0
      {
        TextColumnTransitive(render, dom, a, b, c);
      }
    } else {
      var a, b :| a in dom && b in dom && !a.Nil? && !b.Nil? &&
          Compare(render, a, b) != CompareStr(render(a), render(b));
      NotTransitiveFrom(render, dom, a, b);
    }
  }

  ghost function AllOf(k: Kind): iset<Value> {
    iset v: Value | OfKind(k, v)
  }

  /** Numbers together with strings are not ordered: 9 is less than 10 but prints after it. */
  lemma NumbersBreakWithTexts(render: Value -> Str)
    requires TextsPlain(render) && render(Num(Int64, 9.0)) == [57] && render(Num(Int64, 10.0)) == [49, 48]
    ensures !TransitiveOn(render, WithTexts(AllOf(Numbers)))
  {
    NotTransitiveFrom(render, AllOf(Numbers), Num(Int64, 9.0), Num(Int64, 10.0));
  }

  /** Booleans together with strings are: "false" comes before "true". */
  lemma BooleansJoinTexts(render: Value -> Str)
    requires TextsPlain(render) && render(Bool(false)) == [102, 97, 108, 115, 101] &&
             render(Bool(true)) == [116, 114, 117, 101]
    ensures TransitiveOn(render, WithTexts(AllOf(Booleans)))
  {
    var f, t := render(Bool(false)), render(Bool(true));
    StrAntisymmetric(f, f);
    StrAntisymmetric(t, t);
    StrAntisymmetric(f, t);
    forall a, b | a in AllOf(Booleans) && b in AllOf(Booleans) && !a.Nil? && !b.Nil?
      ensures Compare(render, a, b) == CompareStr(render(a), render(b))
    {
      assert a == Bool(false) || a == Bool(true);
      assert b == Bool(false) || b == Bool(true);
    }
    TransitiveWithTextsExactly(render, AllOf(Booleans));
  }

  // ---- sortable columns ------------------------------------------------------------------------------

  /** A column of nil and one kind, or of nil, strings and values that compare as they print. */
  datatype Column = OneKind(kind: Kind) | ByText(dom: iset<Value>)

  ghost predicate InColumn(render: Value -> Str, col: Column, v: Value) {
    match col
    case OneKind(k) => OfKind(k, v)
    case ByText(dom) => TextsPlain(render) && PrintsInOrder(render, dom) && v in WithTexts(dom)
  }

  lemma ColumnTransitive(render: Value -> Str, col: Column, a: Value, b: Value, c: Value)
    requires InColumn(render, col, a) && InColumn(render, col, b) && InColumn(render, col, c)
    requires Compare(render, a, b) <= 0 && Compare(render, b, c) <= 0
    ensures Compare(render, a, c) <= 0
  {
    match col
    case OneKind(k) => CompareTransitive(render, k, a, b, c);
    case ByText(dom) => TextColumnTransitive(render, dom, a, b, c);
  }
}
