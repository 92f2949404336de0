/** The number-recognising state machine of CoreMark and the grammar it decides. */
module StateGrammar {
  type Byte = bv8

  const NUL: Byte := 0
  const COMMA: Byte := 44
  const PLUS: Byte := 43
  const MINUS: Byte := 45
  const DOT: Byte := 46
  const ZERO: Byte := 48
  const NINE: Byte := 57
  const UPPER_E: Byte := 69
  const LOWER_E: Byte := 101

  datatype State = Start | Invalid | S1 | S2 | Int | Float | Exponent | Scientific

  predicate Digit(c: Byte) {
    ZERO <= c <= NINE
  }

  predicate Sign(c: Byte) {
    c == PLUS || c == MINUS
  }

  predicate Mark(c: Byte) {
    c == UPPER_E || c == LOWER_E
  }

  lemma Disjoint(c: Byte)
    ensures Digit(c) ==> !Sign(c) && !Mark(c) && c != DOT && c != COMMA && c != NUL
    ensures Sign(c) ==> !Mark(c) && c != DOT && c != COMMA && c != NUL
    ensures Mark(c) ==> c != DOT && c != COMMA && c != NUL
    ensures DOT != COMMA && DOT != NUL && COMMA != NUL
    ensures Digit(ZERO) && Sign(PLUS)
  {
  }

  // ----- The machine

  function Delta(s: State, c: Byte): State {
    match s
    case Start => if Digit(c) then Int else if Sign(c) then S1 else if c == DOT then Float else Invalid
    case S1 => if Digit(c) then Int else if c == DOT then Float else Invalid
    case Int => if c == DOT then Float else if Digit(c) then Int else Invalid
    case Float => if Mark(c) then S2 else if Digit(c) then Float else Invalid
    case S2 => if Sign(c) then Exponent else Invalid
    case Exponent => if Digit(c) then Scientific else Invalid
    case Scientific => if Digit(c) then Scientific else Invalid
    case Invalid => Invalid
  }

  function Reached(text: seq<Byte>): State {
    if text == [] then Start else Delta(Reached(text[..|text| - 1]), text[|text| - 1])
  }

  // ----- The grammar

  predicate Digits(t: seq<Byte>) {
    forall k :: 0 <= k < |t| ==> Digit(t[k])
  }

  /** The text without its leading sign. */
  function Unsigned(t: seq<Byte>): seq<Byte> {
    if t != [] && Sign(t[0]) then t[1..] else t
  }

  /** An optional sign and at least one digit. */
  predicate IsInt(t: seq<Byte>) {
    Unsigned(t) != [] && Digits(Unsigned(t))
  }

  predicate PointAt(u: seq<Byte>, k: nat)
    requires k < |u|
  {
    Digits(u[..k]) && u[k] == DOT && Digits(u[k + 1..])
  }

  /** An optional sign and digits around one point; the digits may be missing on either side. */
  ghost predicate IsFloat(t: seq<Byte>) {
    exists k: nat :: k < |Unsigned(t)| && PointAt(Unsigned(t), k)
  }

  /** A float and the exponent mark. */
  ghost predicate IsMarked(t: seq<Byte>) {
    t != [] && Mark(t[|t| - 1]) && IsFloat(t[..|t| - 1])
  }

  /** The same and a sign, which is not optional. */
  ghost predicate IsExponent(t: seq<Byte>) {
    t != [] && Sign(t[|t| - 1]) && IsMarked(t[..|t| - 1])
  }

  ghost predicate ExponentAt(t: seq<Byte>, k: nat)
    requires k < |t|
  {
    IsExponent(t[..k]) && Digits(t[k..])
  }

  /** The same and at least one digit. */
  ghost predicate IsScientific(t: seq<Byte>) {
    exists k: nat :: k < |t| && ExponentAt(t, k)
  }

  ghost predicate IsNumber(t: seq<Byte>) {
    IsInt(t) || IsFloat(t) || IsScientific(t)
  }

  /** Some number begins with this text. */
  ghost predicate Viable(t: seq<Byte>) {
    exists rest :: IsNumber(t + rest)
  }

  /** The texts that belong to each state. */
  ghost predicate InClass(s: State, t: seq<Byte>) {
    match s
    case Start => t == []
    case S1 => |t| == 1 && Sign(t[0])
    case Int => IsInt(t)
    case Float => IsFloat(t)
    case S2 => IsMarked(t)
    case Exponent => IsExponent(t)
    case Scientific => IsScientific(t)
    case Invalid => !Viable(t)
  }

  // ----- The machine decides the grammar

  function Pop(t: seq<Byte>): seq<Byte>
    requires t != []
  {
    t[..|t| - 1]
  }

  function Last(t: seq<Byte>): Byte
    requires t != []
  {
    t[|t| - 1]
  }

  lemma IntGrows(t: seq<Byte>)
    requires t != []
    ensures IsInt(t) <==> Digit(Last(t)) && (Pop(t) == [] || InClass(S1, Pop(t)) || IsInt(Pop(t)))
  {
    var u, p := Unsigned(t), Pop(t);
    Disjoint(t[0]);
    if |t| > 1 {
      assert Unsigned(p) == u[..|u| - 1];
      assert u[|u| - 1] == Last(t);
    }
    if u != [] {
      assert Digits(u) <==> Digits(u[..|u| - 1]) && Digit(u[|u| - 1]);
    }
  }

  lemma PopUnsigned(t: seq<Byte>)
    requires |t| > 1
    ensures Unsigned(t) != [] && Unsigned(Pop(t)) == Pop(Unsigned(t)) && Last(Unsigned(t)) == Last(t)
  {
  }

  lemma PointGrows(u: seq<Byte>, k: nat)
    requires u != [] && k < |u|
    ensures k < |u| - 1 ==> (PointAt(u, k) <==> PointAt(Pop(u), k) && Digit(Last(u)))
    ensures k == |u| - 1 ==> (PointAt(u, k) <==> Digits(Pop(u)) && Last(u) == DOT)
  {
    if k < |u| - 1 {
      assert Pop(u)[..k] == u[..k];
      assert u[k + 1..] == Pop(u)[k + 1..] + [Last(u)];
      assert Pop(u)[k + 1..] == u[k + 1..][..|u| - k - 2];
    }
  }

  lemma FloatGrows(t: seq<Byte>)
    requires t != []
    ensures IsFloat(t) <==> (Digit(Last(t)) && IsFloat(Pop(t)))
                            || (Last(t) == DOT && (Pop(t) == [] || InClass(S1, Pop(t)) || IsInt(Pop(t))))
  {
    Disjoint(t[0]);
    Disjoint(Last(t));
    if |t| > 1 {
      PopUnsigned(t);
      var u, p := Unsigned(t), Pop(t);
      forall k: nat | k < |u|
        ensures k < |u| - 1 ==> (PointAt(u, k) <==> PointAt(Pop(u), k) && Digit(Last(u)))
        ensures k == |u| - 1 ==> (PointAt(u, k) <==> Digits(Pop(u)) && Last(u) == DOT)
      {
        PointGrows(u, k);
      }
      SignedDigits(p);
      if IsFloat(p) && Digit(Last(t)) {
        var k: nat :| k < |Unsigned(p)| && PointAt(Unsigned(p), k);
        assert PointAt(u, k);
      }
      if Last(t) == DOT && Digits(Unsigned(p)) {
        assert PointAt(u, |u| - 1);
      }
    } else {
      OneByteFloat(t);
    }
  }

  lemma OneByteFloat(t: seq<Byte>)
    requires |t| == 1
    ensures IsFloat(t) <==> t[0] == DOT
    ensures !IsFloat([])
  {
    Disjoint(t[0]);
    if t[0] == DOT {
      assert Unsigned(t) == t && PointAt(t, 0);
    }
  }

  /** Only digits after the sign: nothing yet, or an integer. */
  lemma SignedDigits(p: seq<Byte>)
    ensures Digits(Unsigned(p)) <==> p == [] || InClass(S1, p) || IsInt(p)
  {
  }

  lemma ScientificGrows(t: seq<Byte>)
    requires t != []
    ensures IsScientific(t) <==> Digit(Last(t)) && (IsExponent(Pop(t)) || IsScientific(Pop(t)))
  {
    hide IsExponent, Digit;
    var p := Pop(t);
    forall k: nat | k < |t|
      ensures k == |t| - 1 ==> (ExponentAt(t, k) <==> IsExponent(p) && Digit(Last(t)))
      ensures k < |t| - 1 ==> (ExponentAt(t, k) <==> ExponentAt(p, k) && Digit(Last(t)))
    {
      ExponentGrows(t, k);
    }
    if Digit(Last(t)) {
      if IsExponent(p) { assert ExponentAt(t, |t| - 1); }
      if IsScientific(p) {
        var k: nat :| k < |p| && ExponentAt(p, k);
        assert ExponentAt(t, k);
      }
    }
  }

  lemma ExponentGrows(t: seq<Byte>, k: nat)
    requires k < |t|
    ensures k == |t| - 1 ==> (ExponentAt(t, k) <==> IsExponent(Pop(t)) && Digit(Last(t)))
    ensures k < |t| - 1 ==> (ExponentAt(t, k) <==> ExponentAt(Pop(t), k) && Digit(Last(t)))
  {
    hide IsExponent, Digit;
    var p := Pop(t);
    if k < |t| - 1 {
      assert p[..k] == t[..k];
      assert t[k..] == p[k..] + [Last(t)];
      assert p[k..] == t[k..][..|t| - 1 - k];
    } else {
      assert t[k..] == [Last(t)];
    }
  }

  /** Every state but Invalid is reached by exactly the texts of its class. */
  lemma {:induction false} ReachedIsClass(t: seq<Byte>, s: State)
    requires s != Invalid
    ensures Reached(t) == s <==> InClass(s, t)
    decreases |t|
  {
    if t == [] {
      OneByteFloat([DOT]);
    } else {
      var p, c := Pop(t), Last(t);
      hide Digit, Sign, Mark, IsInt, IsFloat, IsMarked, IsExponent, IsScientific;
      Disjoint(c);
      IntGrows(t);
      FloatGrows(t);
      ScientificGrows(t);
      Marks(t);
      ReachedIsClass(p, Start);
      ReachedIsClass(p, S1);
      ReachedIsClass(p, S2);
      ReachedIsClass(p, Int);
      ReachedIsClass(p, Float);
      ReachedIsClass(p, Exponent);
      ReachedIsClass(p, Scientific);
    }
  }

  lemma Marks(t: seq<Byte>)
    requires t != []
    ensures IsMarked(t) <==> Mark(Last(t)) && IsFloat(Pop(t))
    ensures IsExponent(t) <==> Sign(Last(t)) && IsMarked(Pop(t))
    ensures InClass(S1, t) <==> Sign(Last(t)) && Pop(t) == []
  {
  }

  // ----- Invalid texts

  lemma {:induction false} InvalidStays(t: seq<Byte>, rest: seq<Byte>)
    requires Reached(t) == Invalid
    ensures Reached(t + rest) == Invalid
  {
    if rest == [] {
      assert t + rest == t;
    } else {
      InvalidStays(t, Pop(rest));
      assert Pop(t + rest) == t + Pop(rest);
    }
  }

  lemma ReachedNumber(t: seq<Byte>)
    ensures IsNumber(t) <==> Reached(t) == Int || Reached(t) == Float || Reached(t) == Scientific
  {
    hide IsInt, IsFloat, IsScientific, Reached;
    ReachedIsClass(t, Int);
    ReachedIsClass(t, Float);
    ReachedIsClass(t, Scientific);
  }

  /** The shortest text that makes a number of what has been read. */
  function Completion(s: State): seq<Byte> {
    match s
    case Start => [ZERO]
    case S1 => [ZERO]
    case S2 => [PLUS, ZERO]
    case Exponent => [ZERO]
    case _ => []
  }

  lemma Completes(t: seq<Byte>)
    requires Reached(t) != Invalid
    ensures IsNumber(t + Completion(Reached(t)))
  {
    Disjoint(ZERO);
    Disjoint(PLUS);
    var rest := Completion(Reached(t));
    if |rest| == 0 {
      assert t + rest == t;
    } else if |rest| == 1 {
      assert Pop(t + rest) == t && Last(t + rest) == ZERO;
    } else {
      assert Pop(Pop(t + rest)) == t && Last(Pop(t + rest)) == PLUS && Last(t + rest) == ZERO;
      assert Reached(Pop(t + rest)) == Exponent;
    }
    ReachedNumber(t + rest);
  }

  /** Invalid is reached exactly by the texts that no number begins with. */
  lemma InvalidIsHopeless(t: seq<Byte>)
    ensures Reached(t) == Invalid <==> InClass(Invalid, t)
  {
    hide IsNumber;
    if Reached(t) == Invalid {
      forall rest: seq<Byte> ensures !IsNumber(t + rest) {
        InvalidStays(t, rest);
        ReachedNumber(t + rest);
      }
    } else {
      Completes(t);
    }
  }

  /** The state names the class of the text, and no text belongs to two. */
  lemma ReachedClassifies(t: seq<Byte>, s: State)
    ensures Reached(t) == s <==> InClass(s, t)
  {
    if s == Invalid { InvalidIsHopeless(t); } else { ReachedIsClass(t, s); }
  }
}
