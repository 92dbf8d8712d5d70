/** Values that appear as assertion operands and message fragments, and their
    textual rendering through a logger (include/kassert/internal/logger.hpp).

    C++ decides at compile time whether a type has a stream operator. Here a
    value carries its kind: `Opaque` stands for any operand whose type has no
    stream operator; every other constructor is streamable. */
module Values {

  datatype Value =
    | Int(i: int)                        // an integral operand other than `char`
    | Bool(b: bool)
    | Str(s: string)                     // std::string or a string literal
    | Seq(elems: seq<Value>)             // std::vector
    | Pair(first: Value, second: Value)  // std::pair
    | Opaque                             // a type without a stream operator

  /** Operands that convert to bool and take part in integer arithmetic. */
  predicate Scalar(v: Value) {
    v.Int? || v.Bool?
  }

  /** A value the logger can stream. The vector and pair stream operators
      forward their components unconditionally, so a container is only
      streamable when everything inside it is (otherwise the program does not
      compile). */
  predicate Streamable(v: Value) {
    match v
    case Opaque => false
    case Seq(xs) => forall k :: 0 <= k < |xs| ==> Streamable(xs[k])
    case Pair(a, c) => Streamable(a) && Streamable(c)
    case _ => true
  }

  /** An operand `stringify_value` accepts: either streamable as a whole, or
      without any stream operator at all (then it prints the placeholder). */
  predicate Admissible(v: Value) {
    v.Opaque? || Streamable(v)
  }

  /* ---------- decimal numbers ---------- */

  function Digit(d: nat): char
    requires d < 10
  {
    ('0' as int + d) as char
  }

  predicate IsDigit(c: char) {
    '0' <= c <= '9'
  }

  /** Decimal rendering of a natural number, most significant digit first. */
  function NatToString(n: nat): (s: string)
    ensures |s| > 0
    ensures forall k :: 0 <= k < |s| ==> IsDigit(s[k])
    ensures n > 0 ==> s[0] != '0'
  {
    if n < 10 then [Digit(n)] else NatToString(n / 10) + [Digit(n % 10)]
  }

  /** Reads a string of decimal digits back as a number. */
  function ParseNat(s: string): nat
    requires forall k :: 0 <= k < |s| ==> IsDigit(s[k])
  {
    if |s| == 0 then 0
    else
      assert IsDigit(s[|s| - 1]);
      ParseNat(s[..|s| - 1]) * 10 + (s[|s| - 1] as int - '0' as int)
  }

  /** The decimal rendering loses nothing: it reads back as the same number. */
  lemma {:induction false} NatToStringRoundTrip(n: nat)
    ensures ParseNat(NatToString(n)) == n
  {
    var s := NatToString(n);
    if n >= 10 {
      NatToStringRoundTrip(n / 10);
      assert s[..|s| - 1] == NatToString(n / 10);
    }
  }

  /** `std::ostream << int`: an optional minus sign followed by the digits. */
  function IntToString(i: int): (s: string)
    ensures |s| > 0
    ensures s[0] == '-' || IsDigit(s[0])
  {
    if i < 0 then "-" + NatToString(-i) else NatToString(i)
  }

  /* ---------- containers ---------- */

  /** Elements joined by ", ", as the vector stream operator writes them. */
  function Join(parts: seq<string>): string {
    if |parts| == 0 then ""
    else if |parts| == 1 then parts[0]
    else parts[0] + ", " + Join(parts[1..])
  }

  /** Appending one more element adds exactly one separator and the element:
      this is the step the vector stream operator takes per element. */
  lemma {:induction false} JoinSnoc(parts: seq<string>, p: string)
    requires |parts| > 0
    ensures Join(parts + [p]) == Join(parts) + ", " + p
  {
    if |parts| == 1 {
      assert parts + [p] == [parts[0], p];
      assert (parts + [p])[1..] == [p];
    } else {
      assert (parts + [p])[1..] == parts[1..] + [p];
      JoinSnoc(parts[1..], p);
    }
  }

  /** Text ending in the joined first `i` parts, followed by the separator
      (unless `i` is 0) and part `i`, ends in the joined first `i + 1` parts. */
  lemma JoinPrefixStep(prefix: string, parts: seq<string>, i: int)
    requires 0 <= i < |parts|
    ensures prefix + Join(parts[..i]) + (if i == 0 then "" else ", ") + parts[i]
      == prefix + Join(parts[..i + 1])
  {
    assert parts[..i + 1] == parts[..i] + [parts[i]];
    if i > 0 {
      JoinSnoc(parts[..i], parts[i]);
    } else {
      assert parts[..1] == [parts[0]];
    }
  }

  /** What the logger writes for a streamable value: `std::boolalpha` is set on
      the buffer, so booleans print as words; vectors and pairs use the library's
      own stream operators, recursively. */
  function Render(v: Value): (r: string)
    requires Streamable(v)
    ensures !v.Str? ==> |r| > 0 && r[0] != '<'
    decreases v, 1
  {
    match v
    case Int(i) => IntToString(i)
    case Bool(b) => if b then "true" else "false"
    case Str(s) => s
    case Seq(xs) => "[" + Join(ElementTexts(xs)) + "]"
    case Pair(a, c) => "(" + Render(a) + ", " + Render(c) + ")"
  }

  /** The rendering of every element of a vector, in order. */
  function ElementTexts(xs: seq<Value>): (r: seq<string>)
    requires forall k :: 0 <= k < |xs| ==> Streamable(xs[k])
    ensures |r| == |xs|
    decreases Seq(xs), 0
  {
    seq(|xs|, k requires 0 <= k < |xs| => Render(xs[k]))
  }

  /** `stringify_value`: the value's own rendering, or `<?>` when its type has
      no stream operator. The placeholder appears exactly for such operands,
      string operands excepted, since a string may hold the text `<?>`: every
      other streamable value renders starting with a digit, a minus sign, a
      bracket or a boolean word. */
  function StringifyValue(v: Value): (r: string)
    requires Admissible(v)
    ensures !v.Str? ==> (r == "<?>" <==> v.Opaque?)
  {
    if v.Opaque? then "<?>"
    else
      var t := Render(v);
      assert !v.Str? ==> t[0] != "<?>"[0];
      t
  }

  /** The concatenated rendering of a sequence of streamed fragments, as in
      `logger << a << b << c`. */
  function MessageText(fragments: seq<Value>): string
    requires forall k :: 0 <= k < |fragments| ==> Streamable(fragments[k])
  {
    if |fragments| == 0 then ""
    else MessageText(fragments[..|fragments| - 1]) + Render(fragments[|fragments| - 1])
  }

  /** One more fragment appends its rendering. */
  lemma MessageTextSnoc(fragments: seq<Value>, v: Value)
    requires forall k :: 0 <= k < |fragments| ==> Streamable(fragments[k])
    requires Streamable(v)
    ensures forall k :: 0 <= k < |fragments + [v]| ==> Streamable((fragments + [v])[k])
    ensures MessageText(fragments + [v]) == MessageText(fragments) + Render(v)
  {
    assert (fragments + [v])[..|fragments|] == fragments;
  }

  /** Vector renderings the library's tests expect: empty, one element, and
      elements joined by ", ". */
  lemma VectorRenderingExamples()
    ensures Render(Seq([])) == "[]"
    ensures Render(Seq([Int(0)])) == "[0]"
    ensures Render(Seq([Int(1), Int(2), Int(3)])) == "[1, 2, 3]"
  {
    assert ElementTexts([Int(0)]) == ["0"];
    assert ElementTexts([Int(1), Int(2), Int(3)]) == ["1", "2", "3"];
    assert Join(["1", "2", "3"]) == "1, 2, 3";
  }

  /** Pair renderings the library's tests expect, also nested in and around
      vectors. */
  lemma PairRenderingExamples()
    ensures Render(Pair(Int(1), Int(2))) == "(1, 2)"
    ensures Render(Seq([Pair(Int(1), Int(2)), Pair(Int(1), Int(3))])) == "[(1, 2), (1, 3)]"
    ensures Render(Pair(Seq([]), Int(0))) == "([], 0)"
  {
    var p12, p13 := Pair(Int(1), Int(2)), Pair(Int(1), Int(3));
    assert Render(p12) == "(1, 2)";
    assert Render(p13) == "(1, 3)";
    assert ElementTexts([p12, p13]) == ["(1, 2)", "(1, 3)"];
    assert Render(Seq([])) == "[]";
  }

  /** Scalars: `std::boolalpha` words and signed decimals. */
  lemma ScalarRenderingExamples()
    ensures Render(Bool(true)) == "true" && Render(Bool(false)) == "false"
    ensures Render(Int(42)) == "42" && Render(Int(-10)) == "-10"
  {
  }
}
