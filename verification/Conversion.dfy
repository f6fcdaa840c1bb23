// СonvertAssign: store a value of any type in a variable of another, without losing
// information or with an error.
module Conversion {
  import opened Base
  import opened Decimal

  // int and uint are 64 bits wide and types of their own.
  datatype Width = W8 | W16 | W32 | W64 | Native

  datatype Type = IntT(w: Width) | UintT(w: Width) | StrT | BytesT | BoolT | AnyT | PtrT(elem: Type)

  // Nil is an empty interface; text stands for Go's strings and byte slices alike.
  datatype Value =
    | Nil
    | Int(w: Width, n: int)
    | Uint(w: Width, n: int)
    | Str(s: string)
    | Bytes(data: Option<string>)
    | Bool(b: bool)
    | Any(inner: Value)
    | Ptr(target: Option<Value>)

  // 2^(bits-1).
  function Half(w: Width): nat {
    match w
    case W8 => 0x80
    case W16 => 0x8000
    case W32 => 0x8000_0000
    case _ => 0x8000_0000_0000_0000
  }

  // The numbers an integer type can hold; none for the other types.
  predicate Fits(t: Type, n: int) {
    match t
    case IntT(w) => 0 <= n + Half(w) && n < Half(w)
    case UintT(w) => 0 <= n < 2 * Half(w)
    case _ => false
  }

  predicate IsNumber(v: Value) {
    (v.Int? && Fits(IntT(v.w), v.n)) || (v.Uint? && Fits(UintT(v.w), v.n))
  }

  function NumberOf(t: Type, n: int): Value
    requires t.IntT? || t.UintT?
  {
    if t.IntT? then Int(t.w, n) else Uint(t.w, n)
  }

  function TypeOf(v: Value): Type
    requires IsNumber(v)
  {
    if v.Int? then IntT(v.w) else UintT(v.w)
  }

  // The sources of this model: nil, integers, text, bytes and booleans.
  predicate IsSource(v: Value) {
    v.Nil? || IsNumber(v) || v.Str? || v.Bytes? || v.Bool?
  }

  predicate HasType(v: Value, t: Type) {
    match t
    case IntT(w) => v.Int? && v.w == w && Fits(t, v.n)
    case UintT(w) => v.Uint? && v.w == w && Fits(t, v.n)
    case StrT => v.Str?
    case BytesT => v.Bytes?
    case BoolT => v.Bool?
    case AnyT => v.Any? && IsSource(v.inner)
    case PtrT(e) => v.Ptr? && (v.target.Some? ==> HasType(v.target.value, e))
  }

  function Zero(t: Type): Value {
    match t
    case IntT(w) => Int(w, 0)
    case UintT(w) => Uint(w, 0)
    case StrT => Str("")
    case BytesT => Bytes(None)
    case BoolT => Bool(false)
    case AnyT => Any(Nil)
    case PtrT(_) => Ptr(None)
  }

  // AsString; never asked about nil.
  function AsString(v: Value): string {
    match v
    case Int(_, n) => IntText(n)
    case Uint(_, n) => IntText(n)
    case Str(s) => s
    case Bytes(data) => if data.Some? then data.value else ""
    case Bool(b) => if b then "true" else "false"
    case _ => ""
  }

  // strconv.ParseBool.
  function ParseBool(s: string): Option<bool> {
    if s in ["1", "t", "T", "TRUE", "true", "True"] then Some(true)
    else if s in ["0", "f", "F", "FALSE", "false", "False"] then Some(false)
    else None
  }

  // driver.Bool.ConvertValue.
  function BoolOf(v: Value): Option<bool> {
    match v
    case Bool(b) => Some(b)
    case Str(_) => ParseBool(AsString(v))
    case Bytes(_) => ParseBool(AsString(v))
    case Int(_, n) => if n == 0 then Some(false) else if n == 1 then Some(true) else None
    case Uint(_, n) => if n == 0 then Some(false) else if n == 1 then Some(true) else None
    case _ => None
  }

  function ParseNumber(t: Type, s: string): Option<int>
    requires t.IntT? || t.UintT?
  {
    if t.IntT? then ParseInt(s, Half(t.w)) else ParseUint(s, 2 * Half(t.w))
  }

  // What the destination holds afterwards, and whether the call succeeds. Every number goes
  // through text here; there is no fast path.
  function Assign(t: Type, before: Value, src: Value): (Value, bool)
    decreases t
  {
    match t
    case AnyT => (Any(src), true)
    case StrT => if src.Nil? then (before, false) else (Str(AsString(src)), true)
    case BytesT =>
      (Bytes(if src.Nil? then None else if src.Bytes? then src.data else Some(AsString(src))), true)
    case BoolT =>
      (match BoolOf(src) case Some(b) => (Bool(b), true) case None => (before, false))
    case PtrT(e) =>
      if src.Nil? then (Ptr(None), true)
      else
        var (v, ok) := Assign(e, Zero(e), src);
        (Ptr(Some(v)), ok)
    case _ =>
      if src.Nil? then (before, false)
      else (match ParseNumber(t, AsString(src)) case Some(n) => (NumberOf(t, n), true) case None => (before, false))
  }

  /* ---- integers ---- */

  lemma ParseNumberPrints(t: Type, n: int)
    requires t.IntT? || t.UintT?
    ensures ParseNumber(t, IntText(n)) == if Fits(t, n) then Some(n) else None
  {
    if t.IntT? {
      ParseIntPrints(n, Half(t.w));
    } else if n < 0 {
      ParseUintRefusesNegative(n, 2 * Half(t.w));
    } else {
      ParseUintPrints(n, 2 * Half(t.w));
    }
  }

  // Between any two integer types the conversion succeeds exactly when the value fits, then
  // stores that same value, and otherwise leaves the destination as it was.
  lemma LosslessOrRefused(t: Type, before: Value, src: Value)
    requires (t.IntT? || t.UintT?) && IsNumber(src)
    ensures Assign(t, before, src) == if Fits(t, src.n) then (NumberOf(t, src.n), true) else (before, false)
  {
    ParseNumberPrints(t, src.n);
  }

  // There and back again is the identity: whenever the first step succeeds so does the second.
  lemma ThereAndBack(t: Type, before: Value, before': Value, src: Value)
    requires (t.IntT? || t.UintT?) && IsNumber(src) && Assign(t, before, src).1
    ensures IsNumber(Assign(t, before, src).0)
    ensures Assign(TypeOf(src), before', Assign(t, before, src).0) == (src, true)
  {
    LosslessOrRefused(t, before, src);
    LosslessOrRefused(TypeOf(src), before', NumberOf(t, src.n));
  }

  // So is going through a string or a byte slice.
  lemma ThereAndBackThroughText(t: Type, before: Value, before': Value, src: Value)
    requires IsNumber(src) && (t == StrT || t == BytesT)
    ensures Assign(t, before, src).1
    ensures Assign(TypeOf(src), before', Assign(t, before, src).0) == (src, true)
  {
    var text := Assign(t, before, src).0;
    assert AsString(text) == IntText(src.n) && !text.Nil?;
    assert Fits(TypeOf(src), src.n) && NumberOf(TypeOf(src), src.n) == src;
    ParseNumberPrints(TypeOf(src), src.n);
  }

  // The texts an integer prints: no plus sign, no leading zero, no minus zero.
  predicate CanonicalInt(s: string) {
    s != "" && if s[0] == '-' then Canonical(s[1..]) && s[1..] != "0" else Canonical(s)
  }

  lemma CanonicalIntIsPrinted(s: string)
    ensures CanonicalInt(s) <==> exists n :: s == IntText(n)
  {
    if CanonicalInt(s) {
      if s[0] == '-' {
        CanonicalIsDigits(s[1..]);
        DigitsAreCanonical(Decimal.Value(s[1..]));
        assert Digits(0) == "0";
        assert s == IntText(-Decimal.Value(s[1..]));
      } else {
        CanonicalIsDigits(s);
        assert s == IntText(Decimal.Value(s));
      }
    }
    if exists n :: s == IntText(n) {
      var n :| s == IntText(n);
      DigitsAreCanonical(if n < 0 then -n else n);
      if n < 0 {
        assert s[1..] == Digits(-n);
        assert Digits(-n) != "0" by { assert Digits(0) == "0"; DigitsAreCanonical(0); }
      }
    }
  }

  // A text stored in an integer and printed again is the same text exactly when it was
  // canonical: the value survives, but a plus sign or leading zeros do not.
  lemma TextThroughNumber(t: Type, before: Value, before': Value, s: string)
    requires (t.IntT? || t.UintT?) && Assign(t, before, Str(s)).1
    ensures var back := Assign(StrT, before', Assign(t, before, Str(s)).0);
      back.1 && (back.0 == Str(s) <==> CanonicalInt(s))
  {
    var n := Assign(t, before, Str(s)).0.n;
    CanonicalIntIsPrinted(s);
    if CanonicalInt(s) {
      var m :| s == IntText(m);
      ParseNumberPrints(t, m);
    }
  }

  // An explicit plus sign is accepted by the signed types only.
  lemma PlusSign(w: Width, before: Value, s: string)
    ensures Assign(UintT(w), before, Str("+" + s)) == (before, false)
    ensures Assign(IntT(w), before, Str("+" + s))
         == match ParseUint(s, Half(w)) case Some(n) => (Int(w, n), true) case None => (before, false)
  {
    assert ("+" + s)[0] == '+' && ("+" + s)[1..] == s;
  }

  // The range of every integer type.
  lemma IntegerRanges(n: int)
    ensures Fits(IntT(W8), n) <==> -128 <= n <= 127
    ensures Fits(IntT(W16), n) <==> -32768 <= n <= 32767
    ensures Fits(IntT(W32), n) <==> -2147483648 <= n <= 2147483647
    ensures Fits(IntT(W64), n) <==> -9223372036854775808 <= n <= 9223372036854775807
    ensures Fits(IntT(Native), n) <==> Fits(IntT(W64), n)
    ensures Fits(UintT(W8), n) <==> 0 <= n <= 255
    ensures Fits(UintT(W16), n) <==> 0 <= n <= 65535
    ensures Fits(UintT(W32), n) <==> 0 <= n <= 4294967295
    ensures Fits(UintT(W64), n) <==> 0 <= n <= 18446744073709551615
    ensures Fits(UintT(Native), n) <==> Fits(UintT(W64), n)
  {
  }

  /* ---- text, booleans and nil ---- */

  predicate IsText(v: Value, s: string) {
    v == Str(s) || v == Bytes(Some(s))
  }

  // Text stored in a string or a byte slice is always accepted and kept as it is, so it comes
  // back from there, by way of either, as it was.
  lemma TextIsKept(t: Type, t': Type, before: Value, before': Value, src: Value, s: string)
    requires t in {StrT, BytesT} && t' in {StrT, BytesT} && IsText(src, s)
    ensures Assign(t, before, src) == (if t == StrT then Str(s) else Bytes(Some(s)), true)
    ensures Assign(t', before', Assign(t, before, src).0) == (if t' == StrT then Str(s) else Bytes(Some(s)), true)
  {
  }

  // A number's text is the one FormatInt gives, in a string or a byte slice; a boolean's is
  // "true" or "false"; and a nil slice is no text in a string and itself in a slice.
  lemma TextOfTheOthers(before: Value, src: Value)
    ensures IsNumber(src) ==> Assign(StrT, before, src) == (Str(IntText(src.n)), true)
    ensures IsNumber(src) ==> Assign(BytesT, before, src) == (Bytes(Some(IntText(src.n))), true)
    ensures src.Bool? ==> Assign(StrT, before, src) == (Str(if src.b then "true" else "false"), true)
    ensures src.Bool? ==> Assign(BytesT, before, src) == (Bytes(Some(if src.b then "true" else "false")), true)
    ensures Assign(StrT, before, Bytes(None)) == (Str(""), true) && Assign(BytesT, before, Bytes(None)) == (Bytes(None), true)
  {
  }

  // A boolean accepts booleans, the numbers 0 and 1, and six texts for each of its values; a
  // boolean stored in text and read back is itself, and is no number.
  lemma WhatBooleansAccept(before: Value, src: Value, s: string)
    requires IsSource(src)
    ensures src.Bool? ==> Assign(BoolT, before, src) == (src, true)
    ensures IsNumber(src) ==> Assign(BoolT, before, src) == if src.n in {0, 1} then (Bool(src.n == 1), true) else (before, false)
    ensures IsText(src, s) ==>
      Assign(BoolT, before, src) ==
        if s in {"1", "t", "T", "TRUE", "true", "True"} then (Bool(true), true)
        else if s in {"0", "f", "F", "FALSE", "false", "False"} then (Bool(false), true)
        else (before, false)
  {
  }

  lemma BooleansThroughText(t: Type, before: Value, before': Value, b: bool, w: Width)
    requires t in {StrT, BytesT}
    ensures Assign(BoolT, before', Assign(t, before, Bool(b)).0) == (Bool(b), true)
    ensures Assign(IntT(w), before, Bool(b)) == (before, false) && Assign(UintT(w), before, Bool(b)) == (before, false)
  {
    var text := if b then "true" else "false";
    TextOfTheOthers(before, Bool(b));
    WhatBooleansAccept(before', if t == StrT then Str(text) else Bytes(Some(text)), text);
    LettersAreNoNumber(text, Half(w));
    LettersAreNoNumber(text, 2 * Half(w));
  }

  lemma LettersAreNoNumber(s: string, limit: nat)
    requires s != "" && 'a' <= s[0] <= 'z'
    ensures ParseInt(s, limit) == ParseUint(s, limit) == None
  {
    assert !IsDigit(s[0]);
  }

  // Text in an integer: exactly what the parsers take.
  lemma WhatNumbersAccept(t: Type, before: Value, src: Value, s: string, n: int)
    requires (t.IntT? || t.UintT?) && IsText(src, s)
    ensures Assign(t, before, src) == (NumberOf(t, n), true) <==>
      Fits(t, n) && if t.IntT? then IsIntText(s, n) else n >= 0 && Decimal.IsText(s, n)
    ensures !Assign(t, before, src).1 ==> Assign(t, before, src).0 == before
  {
    ParseNumberAccepts(t, s, n);
    AssignsWhatIsParsed(t, before, src, s);
  }

  // The digits of a number behind any zeros and at most one sign.
  ghost predicate IsIntText(s: string, n: int) {
    || (n >= 0 && Decimal.IsText(s, n))
    || (n >= 0 && s != "" && s[0] == '+' && Decimal.IsText(s[1..], n))
    || (n <= 0 && s != "" && s[0] == '-' && Decimal.IsText(s[1..], -n))
  }

  lemma ParseNumberAccepts(t: Type, s: string, n: int)
    requires t.IntT? || t.UintT?
    ensures ParseNumber(t, s) == Some(n) <==>
      Fits(t, n) && if t.IntT? then IsIntText(s, n) else n >= 0 && Decimal.IsText(s, n)
  {
    if t.IntT? {
      ParseIntAccepts(s, Half(t.w), n);
      if n > 0 && IsIntText(s, n) && s[0] == '-' { TextBegins(s, n); }
    } else if n >= 0 {
      ParseUintAccepts(s, 2 * Half(t.w), n);
    }
  }

  lemma AssignsWhatIsParsed(t: Type, before: Value, src: Value, s: string)
    requires (t.IntT? || t.UintT?) && IsText(src, s)
    ensures Assign(t, before, src) == match ParseNumber(t, s) case Some(n) => (NumberOf(t, n), true) case None => (before, false)
  {
  }

  // Nil is accepted by byte slices, `any` and pointers, and by nothing else; an `any` holds the
  // source itself, and a new variable of any other type but a pointer empty text, 0 or false.
  lemma WhatNilAndAnyDo(t: Type, before: Value, src: Value)
    ensures Assign(AnyT, before, src) == (Any(src), true)
    ensures t == StrT || t == BytesT ==> Assign(StrT, before, Zero(t)) == (Str(""), true)
    ensures t.IntT? || t.UintT? || t.BoolT? ==> Assign(BoolT, before, Zero(t)) == (Bool(false), true)
    ensures Assign(t, before, Nil) ==
      if t == BytesT then (Bytes(None), true)
      else if t == AnyT then (Any(Nil), true)
      else if t.PtrT? then (Ptr(None), true)
      else (before, false)
  {
  }

  /* ---- every destination ---- */

  lemma {:induction false} NumbersParsedFit(t: Type, s: string)
    requires (t.IntT? || t.UintT?) && ParseNumber(t, s).Some?
    ensures Fits(t, ParseNumber(t, s).value)
  {
  }

  // A destination keeps its type, whatever happens.
  lemma {:induction false} KeepsType(t: Type, before: Value, src: Value)
    requires HasType(before, t) && IsSource(src)
    ensures HasType(Assign(t, before, src).0, t)
    decreases t
  {
    if t.PtrT? && !src.Nil? {
      KeepsType(t.elem, Zero(t.elem), src);
    } else if (t.IntT? || t.UintT?) && !src.Nil? && ParseNumber(t, AsString(src)).Some? {
      NumbersParsedFit(t, AsString(src));
    }
  }

  // What a failed conversion through pointers leaves: freshly allocated zeros all the way down.
  function Blank(t: Type): Value {
    if t.PtrT? then Ptr(Some(Blank(t.elem))) else Zero(t)
  }

  // A failure leaves a destination as it was, except a pointer, which it has already pointed
  // at a new zero value: so it is unchanged exactly when it is no pointer or was such a blank.
  lemma {:induction false} FailureLeaves(t: Type, before: Value, src: Value)
    requires !Assign(t, before, src).1
    ensures Assign(t, before, src).0 == if t.PtrT? then Blank(t) else before
    ensures Assign(t, before, src).0 == before <==> !t.PtrT? || before == Blank(t)
    decreases t
  {
    if !t.PtrT? {
    } else {
      FailureLeaves(t.elem, Zero(t.elem), src);
    }
  }

  // For instance text that is no number, through a pointer that pointed at 7.
  lemma FailureThroughPointer(w: Width)
    ensures Assign(PtrT(IntT(w)), Ptr(Some(Int(w, 7))), Str("x")) == (Ptr(Some(Int(w, 0))), false)
    ensures Assign(PtrT(UintT(w)), Ptr(Some(Uint(w, 7))), Str("x")) == (Ptr(Some(Uint(w, 0))), false)
    ensures Assign(PtrT(BoolT), Ptr(Some(Bool(true))), Str("x")) == (Ptr(Some(Bool(false))), false)
  {
    assert "x"[0] == 'x' && !IsDigit("x"[0]);
  }

  function Pointee(t: Type): Type {
    if t.PtrT? then Pointee(t.elem) else t
  }

  // What the pointers lead to.
  function Deref(v: Value): Option<Value> {
    if !v.Ptr? then Some(v) else if v.target.Some? then Deref(v.target.value) else None
  }

  // Through any number of pointers, a value that is not nil is converted as it is without them.
  lemma {:induction false} PointersAreTransparent(t: Type, before: Value, src: Value)
    requires t.PtrT? && IsSource(src) && !src.Nil?
    ensures var r, direct := Assign(t, before, src), Assign(Pointee(t), Zero(Pointee(t)), src);
      r.1 == direct.1 && Deref(r.0) == Some(direct.0)
    decreases t
  {
    if t.elem.PtrT? {
      PointersAreTransparent(t.elem, Zero(t.elem), src);
    } else {
      NotAPointer(t.elem, src);
    }
  }

  lemma NotAPointer(t: Type, src: Value)
    requires !t.PtrT?
    ensures !Assign(t, Zero(t), src).0.Ptr?
  {
  }

  // Success and what is stored on success do not depend on what was there before.
  lemma {:induction false} OldValueIsIgnored(t: Type, a: Value, b: Value, src: Value)
    ensures Assign(t, a, src).1 == Assign(t, b, src).1
    ensures Assign(t, a, src).1 ==> Assign(t, a, src) == Assign(t, b, src)
  {
  }

  /* ---- in place ---- */

  // A variable: for a pointer type `to` is what it points at, otherwise `v` is its value.
  class Cell {
    const t: Type
    var v: Value
    var to: Cell?
    ghost var repr: set<Cell>

    ghost predicate Valid()
      reads this, repr
      decreases t
    {
      && this in repr
      && if t.PtrT?
         then to != null ==> to in repr && to.repr <= repr - {this} && to.t == t.elem && to.Valid()
         else HasType(v, t)
    }

    ghost function View(): Value
      requires Valid()
      reads this, repr
      decreases t
    {
      if !t.PtrT? then v else if to == null then Ptr(None) else Ptr(Some(to.View()))
    }

    constructor (t: Type)
      ensures Valid() && this.t == t && fresh(repr) && View() == Zero(t)
    {
      this.t, v, to := t, Zero(t), null;
      new;
      repr := {this};
    }
  }

  // The branches in the order of the source. Only the destination itself is written: what a
  // pointer pointed at before is left alone.
  method ConvertAssign(dest: Cell, src: Value) returns (ok: bool)
    requires dest.Valid() && IsSource(src)
    modifies dest
    ensures dest.Valid() && fresh(dest.repr - old(dest.repr))
    ensures (dest.View(), ok) == Assign(dest.t, old(dest.View()), src)
    decreases dest.t
  {
    match (src, dest.t) {
      case (Str(s), StrT) => dest.v := Str(s); return true;
      case (Str(s), BytesT) => dest.v := Bytes(Some(s)); return true;
      case (Bytes(_), StrT) => dest.v := Str(AsString(src)); return true;
      case (Bytes(_), AnyT) => dest.v := Any(src); return true;
      case (Bytes(_), BytesT) => dest.v := src; return true;
      case (Nil, AnyT) => dest.v := Any(Nil); return true;
      case (Nil, BytesT) => dest.v := Bytes(None); return true;
      case _ =>
    }
    match dest.t {
      case StrT =>
        if src.Bool? || src.Int? || src.Uint? {
          dest.v := Str(AsString(src));
          return true;
        }
      case BytesT =>
        dest.v := Bytes(Some(AsString(src)));
        return true;
      case BoolT =>
        var b := BoolOf(src);
        if b.Some? {
          dest.v := Bool(b.value);
        }
        return b.Some?;
      case AnyT =>
        dest.v := Any(src);
        return true;
      case _ =>
    }
    // The same type on both sides: no text in between.
    if (src.Int? && dest.t == IntT(src.w)) || (src.Uint? && dest.t == UintT(src.w)) {
      LosslessOrRefused(dest.t, dest.View(), src);
      dest.v := src;
      return true;
    }
    if dest.t.PtrT? {
      if src.Nil? {
        dest.to := null;
        return true;
      }
      var target := new Cell(dest.t.elem);
      dest.to, dest.repr := target, {dest} + target.repr;
      ok := ConvertAssign(target, src);
      dest.repr := {dest} + target.repr;
      return;
    }
    if src.Nil? || dest.t == StrT {
      return false;
    }
    var n := ParseNumber(dest.t, AsString(src));
    if n.Some? {
      NumbersParsedFit(dest.t, AsString(src));
      dest.v := NumberOf(dest.t, n.value);
    }
    return n.Some?;
  }
}
