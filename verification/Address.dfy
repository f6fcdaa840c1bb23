// String addresses "prefix:a:b:c" of websocket clients and WebRTC connections:
// printed by Key(), split and parsed back by Send().
module Address {
  import opened Base
  import opened Decimal

  // strings.Split(s, ":").
  function Split(s: string): (fields: seq<string>)
    ensures |fields| >= 1
  {
    if s == "" then [""]
    else
      var rest := Split(s[1..]);
      if s[0] == ':' then [""] + rest else [[s[0]] + rest[0]] + rest[1..]
  }

  function Join(fields: seq<string>): string
    requires |fields| >= 1
  {
    if |fields| == 1 then fields[0] else fields[0] + ":" + Join(fields[1..])
  }

  // fmt.Sprintf(prefix + ":%d:%d:%d", a, b, c).
  function Print(prefix: string, a: u64, b: u64, c: u64): string {
    Join([prefix, Digits(a), Digits(b), Digits(c)])
  }

  function ParseU64(s: string): Option<u64> {
    match ParseUint(s, TWO_64)
    case Some(v) => Some(v)
    case None => None
  }

  // The nested checks at the top of both Send functions.
  function Parse(prefix: string, s: string): Option<(u64, u64, u64)> {
    var f := Split(s);
    if |f| != 4 || f[0] != prefix then None
    else
      match (ParseU64(f[1]), ParseU64(f[2]), ParseU64(f[3]))
      case (Some(a), Some(b), Some(c)) => Some((a, b, c))
      case _ => None
  }

  lemma {:induction false} SplitField(a: string, b: string)
    requires ':' !in a
    ensures Split(a) == [a]
    ensures Split(a + ":" + b) == [a] + Split(b)
  {
    var s := a + ":" + b;
    if a == "" {
      assert s[1..] == b;
    } else {
      SplitField(a[1..], b);
      assert s[1..] == a[1..] + ":" + b;
      assert s[0] == a[0] && [a[0]] + a[1..] == a;
      assert ([a[1..]] + Split(b))[1..] == Split(b);
    }
  }

  lemma {:induction false} SplitJoin(fields: seq<string>)
    requires |fields| >= 1
    requires forall i :: 0 <= i < |fields| ==> ':' !in fields[i]
    ensures Split(Join(fields)) == fields
  {
    if |fields| == 1 {
      SplitField(fields[0], "");
    } else {
      SplitJoin(fields[1..]);
      assert Join(fields) == fields[0] + ":" + Join(fields[1..]);
      SplitField(fields[0], Join(fields[1..]));
      assert fields == [fields[0]] + fields[1..];
    }
  }

  lemma {:induction false} JoinSplit(s: string)
    ensures Join(Split(s)) == s
  {
    if s == "" {
    } else {
      JoinSplit(s[1..]);
      var rest := Split(s[1..]);
      if s[0] == ':' {
        assert Split(s)[1..] == rest;
      } else {
        assert Split(s)[1..] == rest[1..];
      }
    }
  }

  lemma FieldHasNoColon(n: nat)
    ensures ':' !in Digits(n)
  {
    DigitsAreCanonical(n);
    forall i | 0 <= i < |Digits(n)| ensures Digits(n)[i] != ':' {
      assert IsDigit(Digits(n)[i]);
    }
  }

  // Splitting and parsing a printed address recovers the exact triple, for every uint64.
  lemma ParsePrinted(prefix: string, a: u64, b: u64, c: u64)
    requires ':' !in prefix
    ensures Parse(prefix, Print(prefix, a, b, c)) == Some((a, b, c))
  {
    var f := [prefix, Digits(a), Digits(b), Digits(c)];
    FieldHasNoColon(a); FieldHasNoColon(b); FieldHasNoColon(c);
    SplitJoin(f);
    ParseUintPrints(a, TWO_64); ParseUintPrints(b, TWO_64); ParseUintPrints(c, TWO_64);
  }

  // Distinct triples print distinct addresses.
  lemma PrintIsInjective(prefix: string, a: u64, b: u64, c: u64, a': u64, b': u64, c': u64)
    requires ':' !in prefix
    requires Print(prefix, a, b, c) == Print(prefix, a', b', c')
    ensures (a, b, c) == (a', b', c')
  {
    ParsePrinted(prefix, a, b, c);
    ParsePrinted(prefix, a', b', c');
  }

  // The only accepted texts are the printed address and its variants with leading zeros.
  lemma AcceptedAddress(prefix: string, s: string)
    requires ':' !in prefix
    ensures var p, f := Parse(prefix, s), Split(s);
      p.Some? && Canonical(f[1]) && Canonical(f[2]) && Canonical(f[3])
      <==> exists a, b, c: u64 :: s == Print(prefix, a, b, c)
  {
    var p, f := Parse(prefix, s), Split(s);
    if exists a, b, c: u64 :: s == Print(prefix, a, b, c) {
      var a: u64, b: u64, c: u64 :| s == Print(prefix, a, b, c);
      ParsePrinted(prefix, a, b, c);
      FieldHasNoColon(a); FieldHasNoColon(b); FieldHasNoColon(c);
      SplitJoin([prefix, Digits(a), Digits(b), Digits(c)]);
      DigitsAreCanonical(a); DigitsAreCanonical(b); DigitsAreCanonical(c);
    }
    if p.Some? && Canonical(f[1]) && Canonical(f[2]) && Canonical(f[3]) {
      JoinSplit(s);
      CanonicalIsDigits(f[1]); CanonicalIsDigits(f[2]); CanonicalIsDigits(f[3]);
      assert f == [prefix, f[1], f[2], f[3]];
      assert s == Print(prefix, p.value.0, p.value.1, p.value.2);
    }
  }

  // The printed form, and every text read as that triple: the same fields, with any zeros
  // before the numbers.
  lemma AddressFormat(prefix: string, a: u64, b: u64, c: u64)
    ensures Print(prefix, a, b, c) == prefix + ":" + Digits(a) + ":" + Digits(b) + ":" + Digits(c)
  {
    assert Join([Digits(c)]) == Digits(c);
    assert Join([Digits(b), Digits(c)]) == Digits(b) + ":" + Digits(c);
    assert Join([Digits(a), Digits(b), Digits(c)]) == Digits(a) + ":" + (Digits(b) + ":" + Digits(c));
    assert Print(prefix, a, b, c) == prefix + ":" + (Digits(a) + ":" + (Digits(b) + ":" + Digits(c)));
  }

  ghost predicate Reads(prefix: string, fields: seq<string>, a: u64, b: u64, c: u64) {
    |fields| == 4 && fields[0] == prefix && IsText(fields[1], a) && IsText(fields[2], b) && IsText(fields[3], c)
  }

  lemma ParseAccepts(prefix: string, s: string, a: u64, b: u64, c: u64)
    ensures Parse(prefix, s) == Some((a, b, c)) <==> Reads(prefix, Split(s), a, b, c)
  {
    var f := Split(s);
    if |f| == 4 {
      ParseUintAccepts(f[1], TWO_64, a);
      ParseUintAccepts(f[2], TWO_64, b);
      ParseUintAccepts(f[3], TWO_64, c);
    }
  }
}
