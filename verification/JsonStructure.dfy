/**
  The structural check of FISCO BCOS trust configuration JSON: a recursive descent over decoder tokens
  with bounds on nesting, object keys and array length. It accepts exactly the token sequences that
  print one bounded tree.
*/
module JsonStructure {
  import opened Wrappers

  const MAX_DEPTH := 16
  const MAX_KEYS := 64
  const MAX_VALUES := 2048

  /** What the decoder yields. Bad stands for a point at which the decoder reports an error. */
  datatype Token = OpenObject | CloseObject | OpenArray | CloseArray | Text(value: string) | Scalar(raw: string) | Bad

  predicate CanonicalKey(key: string) {
    key != "" && forall i :: 0 <= i < |key| ==> key[i] == '_' || 'a' <= key[i] <= 'z' || '0' <= key[i] <= '9'
  }

  // ---------- trees and their printing ----------

  datatype Tree = Leaf(token: Token) | Object(fields: Fields) | Array(values: Values)
  datatype Fields = NoFields | Field(key: string, value: Tree, rest: Fields)
  datatype Values = NoValues | Value(head: Tree, tail: Values)

  function Print(t: Tree): seq<Token> {
    match t
    case Leaf(token) => [token]
    case Object(fields) => [OpenObject] + (PrintFields(fields) + [CloseObject])
    case Array(values) => [OpenArray] + (PrintValues(values) + [CloseArray])
  }

  function PrintFields(f: Fields): seq<Token> {
    match f
    case NoFields => []
    case Field(key, value, rest) => [Text(key)] + (Print(value) + PrintFields(rest))
  }

  function PrintValues(v: Values): seq<Token> {
    match v
    case NoValues => []
    case Value(head, tail) => Print(head) + PrintValues(tail)
  }

  function Keys(f: Fields): set<string> {
    match f
    case NoFields => {}
    case Field(key, _, rest) => {key} + Keys(rest)
  }

  function CountFields(f: Fields): nat {
    match f case NoFields => 0 case Field(_, _, rest) => 1 + CountFields(rest)
  }

  function CountValues(v: Values): nat {
    match v case NoValues => 0 case Value(_, tail) => 1 + CountValues(tail)
  }

  /** A tree whose root is at the given depth keeps all bounds. */
  predicate Bounded(t: Tree, depth: nat) {
    && depth <= MAX_DEPTH
    && match t
       case Leaf(token) => token.Text? || token.Scalar?
       case Object(fields) => CountFields(fields) <= MAX_KEYS && BoundedFields(fields, depth + 1)
       case Array(values) => CountValues(values) <= MAX_VALUES && BoundedValues(values, depth + 1)
  }

  /** Keys are canonical and distinct, values bounded. */
  predicate BoundedFields(f: Fields, depth: nat) {
    match f
    case NoFields => true
    case Field(key, value, rest) =>
      CanonicalKey(key) && key !in Keys(rest) && Bounded(value, depth) && BoundedFields(rest, depth)
  }

  predicate BoundedValues(v: Values, depth: nat) {
    match v
    case NoValues => true
    case Value(head, tail) => Bounded(head, depth) && BoundedValues(tail, depth)
  }

  // ---------- the check as a function of the tokens ----------

  predicate More(tokens: seq<Token>, pos: nat) {
    pos < |tokens| && tokens[pos] != CloseObject && tokens[pos] != CloseArray
  }

  /** Reads one value from `pos`; the position after it, or None for an error. */
  function ReadValue(tokens: seq<Token>, pos: nat, depth: nat): (r: Option<nat>)
    ensures r.Some? ==> pos < r.value <= |tokens|
    decreases |tokens| - pos, 1
  {
    if depth > MAX_DEPTH || pos >= |tokens| then None
    else match tokens[pos]
      case OpenObject => ReadFields(tokens, pos + 1, depth, {}, 0)
      case OpenArray => ReadValues(tokens, pos + 1, depth, 0)
      case CloseObject => None
      case CloseArray => None
      case Bad => None
      case _ => Some(pos + 1)
  }

  /** The rest of an object whose keys so far are the `n` elements of `seen`. */
  function ReadFields(tokens: seq<Token>, pos: nat, depth: nat, seen: set<string>, n: nat): (r: Option<nat>)
    ensures r.Some? ==> pos < r.value <= |tokens|
    decreases |tokens| - pos, 0
  {
    if !More(tokens, pos) then
      if pos < |tokens| && tokens[pos].CloseObject? then Some(pos + 1) else None
    else if !tokens[pos].Text? || !CanonicalKey(tokens[pos].value) || tokens[pos].value in seen
            || n >= MAX_KEYS then None
    else
      var next := ReadValue(tokens, pos + 1, depth + 1);
      if next.None? then None else ReadFields(tokens, next.value, depth, seen + {tokens[pos].value}, n + 1)
  }

  /** The rest of an array after `count` values. */
  function ReadValues(tokens: seq<Token>, pos: nat, depth: nat, count: nat): (r: Option<nat>)
    ensures r.Some? ==> pos < r.value <= |tokens|
    decreases |tokens| - pos, 2
  {
    if !More(tokens, pos) then
      if pos < |tokens| && tokens[pos].CloseArray? then Some(pos + 1) else None
    else if count >= MAX_VALUES then None
    else
      var next := ReadValue(tokens, pos, depth + 1);
      if next.None? then None else ReadValues(tokens, next.value, depth, count + 1)
  }

  predicate Accepted(tokens: seq<Token>) {
    ReadValue(tokens, 0, 0) == Some(|tokens|)
  }

  // ---------- what is accepted prints a bounded tree ----------

  lemma Join(tokens: seq<Token>, a: nat, b: nat, c: nat, x: seq<Token>, y: seq<Token>)
    requires a <= b <= c <= |tokens| && tokens[a..b] == x && tokens[b..c] == y
    ensures tokens[a..c] == x + y
  {
    assert tokens[a..c] == tokens[a..b] + tokens[b..c];
  }

  lemma FieldPrinted(key: string, value: Tree, rest: Fields)
    ensures PrintFields(Field(key, value, rest)) + [CloseObject] ==
            [Text(key)] + (Print(value) + (PrintFields(rest) + [CloseObject]))
  {
    assert ([Text(key)] + (Print(value) + PrintFields(rest))) + [CloseObject]
        == [Text(key)] + (Print(value) + (PrintFields(rest) + [CloseObject]));
  }

  lemma {:induction false} ValueSound(tokens: seq<Token>, pos: nat, depth: nat) returns (t: Tree)
    requires ReadValue(tokens, pos, depth).Some?
    ensures Bounded(t, depth) && tokens[pos..ReadValue(tokens, pos, depth).value] == Print(t)
    decreases |tokens| - pos, 1
  {
    var end := ReadValue(tokens, pos, depth).value;
    if tokens[pos].OpenObject? {
      var f := FieldsSound(tokens, pos + 1, depth, {}, 0);
      t := Object(f);
      Join(tokens, pos, pos + 1, end, [OpenObject], PrintFields(f) + [CloseObject]);
    } else if tokens[pos].OpenArray? {
      var v := ValuesSound(tokens, pos + 1, depth, 0);
      t := Array(v);
      Join(tokens, pos, pos + 1, end, [OpenArray], PrintValues(v) + [CloseArray]);
    } else {
      t := Leaf(tokens[pos]);
    }
  }

  lemma {:induction false} FieldsSound(tokens: seq<Token>, pos: nat, depth: nat, seen: set<string>, n: nat)
    returns (f: Fields)
    requires ReadFields(tokens, pos, depth, seen, n).Some?
    ensures BoundedFields(f, depth + 1) && Keys(f) !! seen && (n <= MAX_KEYS ==> n + CountFields(f) <= MAX_KEYS)
    ensures tokens[pos..ReadFields(tokens, pos, depth, seen, n).value] == PrintFields(f) + [CloseObject]
    decreases |tokens| - pos, 0
  {
    var end := ReadFields(tokens, pos, depth, seen, n).value;
    if !More(tokens, pos) {
      f := NoFields;
    } else {
      var key := tokens[pos].value;
      var next := ReadValue(tokens, pos + 1, depth + 1).value;
      var value := ValueSound(tokens, pos + 1, depth + 1);
      var rest := FieldsSound(tokens, next, depth, seen + {key}, n + 1);
      f := Field(key, value, rest);
      Join(tokens, pos + 1, next, end, Print(value), PrintFields(rest) + [CloseObject]);
      Join(tokens, pos, pos + 1, end, [Text(key)], Print(value) + (PrintFields(rest) + [CloseObject]));
      FieldPrinted(key, value, rest);
    }
  }

  lemma {:induction false} ValuesSound(tokens: seq<Token>, pos: nat, depth: nat, count: nat) returns (v: Values)
    requires ReadValues(tokens, pos, depth, count).Some?
    ensures BoundedValues(v, depth + 1) && (count <= MAX_VALUES ==> count + CountValues(v) <= MAX_VALUES)
    ensures tokens[pos..ReadValues(tokens, pos, depth, count).value] == PrintValues(v) + [CloseArray]
    decreases |tokens| - pos, 2
  {
    var end := ReadValues(tokens, pos, depth, count).value;
    if !More(tokens, pos) {
      v := NoValues;
    } else {
      var next := ReadValue(tokens, pos, depth + 1).value;
      var head := ValueSound(tokens, pos, depth + 1);
      var tail := ValuesSound(tokens, next, depth, count + 1);
      v := Value(head, tail);
      assert tokens[pos..end] == tokens[pos..next] + tokens[next..end];
    }
  }

  // ---------- every bounded tree is accepted ----------

  /** `part` stands in the tokens at `pos`. */
  predicate StandsAt(tokens: seq<Token>, pos: nat, part: seq<Token>) {
    pos + |part| <= |tokens| && tokens[pos..pos + |part|] == part
  }

  lemma SplitStanding(tokens: seq<Token>, pos: nat, a: seq<Token>, b: seq<Token>)
    requires StandsAt(tokens, pos, a + b)
    ensures StandsAt(tokens, pos, a) && StandsAt(tokens, pos + |a|, b)
  {
    var whole := tokens[pos..pos + |a + b|];
    assert whole[..|a|] == a && whole[|a|..] == b;
    assert tokens[pos..pos + |a|] == whole[..|a|] && tokens[pos + |a|..pos + |a| + |b|] == whole[|a|..];
  }

  lemma {:induction false} ValueComplete(tokens: seq<Token>, pos: nat, depth: nat, t: Tree)
    requires Bounded(t, depth) && StandsAt(tokens, pos, Print(t))
    ensures ReadValue(tokens, pos, depth) == Some(pos + |Print(t)|)
    decreases t
  {
    match t
    case Leaf(token) => assert tokens[pos] == token;
    case Object(fields) =>
      var inner := PrintFields(fields) + [CloseObject];
      assert Print(t) == [OpenObject] + inner;
      SplitStanding(tokens, pos, [OpenObject], inner);
      assert tokens[pos] == OpenObject;
      FieldsComplete(tokens, pos + 1, depth, {}, 0, fields);
    case Array(values) =>
      var inner := PrintValues(values) + [CloseArray];
      assert Print(t) == [OpenArray] + inner;
      SplitStanding(tokens, pos, [OpenArray], inner);
      assert tokens[pos] == OpenArray;
      ValuesComplete(tokens, pos + 1, depth, 0, values);
  }

  lemma FieldStands(tokens: seq<Token>, pos: nat, key: string, value: Tree, rest: Fields)
    requires StandsAt(tokens, pos, PrintFields(Field(key, value, rest)) + [CloseObject])
    ensures pos < |tokens| && tokens[pos] == Text(key) && StandsAt(tokens, pos + 1, Print(value))
    ensures StandsAt(tokens, pos + 1 + |Print(value)|, PrintFields(rest) + [CloseObject])
    ensures |PrintFields(Field(key, value, rest))| == 1 + |Print(value)| + |PrintFields(rest)|
  {
    var later := PrintFields(rest) + [CloseObject];
    FieldPrinted(key, value, rest);
    SplitStanding(tokens, pos, [Text(key)], Print(value) + later);
    SplitStanding(tokens, pos + 1, Print(value), later);
    assert tokens[pos..pos + 1] == [Text(key)];
  }

  lemma ObjectEnds(tokens: seq<Token>, pos: nat, depth: nat, seen: set<string>, n: nat)
    requires StandsAt(tokens, pos, [CloseObject])
    ensures ReadFields(tokens, pos, depth, seen, n) == Some(pos + 1)
  {
    assert tokens[pos..pos + 1][0] == CloseObject;
  }

  lemma FieldRead(tokens: seq<Token>, pos: nat, depth: nat, seen: set<string>, n: nat, key: string, value: Tree,
                  rest: Fields, next: nat)
    requires pos < |tokens| && tokens[pos] == Text(key) && CanonicalKey(key) && key !in seen && n < MAX_KEYS
    requires next == pos + 1 + |Print(value)| && ReadValue(tokens, pos + 1, depth + 1) == Some(next)
    requires ReadFields(tokens, next, depth, seen + {key}, n + 1) == Some(next + |PrintFields(rest)| + 1)
    ensures ReadFields(tokens, pos, depth, seen, n) == Some(pos + |PrintFields(Field(key, value, rest))| + 1)
  {}

  lemma {:induction false} FieldsComplete(tokens: seq<Token>, pos: nat, depth: nat, seen: set<string>, n: nat,
                                          f: Fields)
    requires BoundedFields(f, depth + 1) && (forall k <- Keys(f) :: k !in seen) && n + CountFields(f) <= MAX_KEYS
    requires StandsAt(tokens, pos, PrintFields(f) + [CloseObject])
    ensures ReadFields(tokens, pos, depth, seen, n) == Some(pos + |PrintFields(f)| + 1)
    decreases f, 1
  {
    if f.NoFields? {
      assert [] + [CloseObject] == [CloseObject];
      ObjectEnds(tokens, pos, depth, seen, n);
    } else {
      assert f == Field(f.key, f.value, f.rest);
      FieldStands(tokens, pos, f.key, f.value, f.rest);
      assert forall k <- Keys(f.rest) :: k !in seen + {f.key};
      FieldComplete(tokens, pos, depth, seen, n, f.key, f.value, f.rest, pos + 1 + |Print(f.value)|);
    }
  }

  lemma {:induction false} FieldComplete(tokens: seq<Token>, pos: nat, depth: nat, seen: set<string>, n: nat,
                                         key: string, value: Tree, rest: Fields, next: nat)
    requires CanonicalKey(key) && key !in seen && Bounded(value, depth + 1) && BoundedFields(rest, depth + 1)
    requires (forall k <- Keys(rest) :: k !in seen + {key}) && n + 1 + CountFields(rest) <= MAX_KEYS
    requires pos < |tokens| && tokens[pos] == Text(key) && StandsAt(tokens, pos + 1, Print(value))
    requires next == pos + 1 + |Print(value)| && StandsAt(tokens, next, PrintFields(rest) + [CloseObject])
    ensures ReadFields(tokens, pos, depth, seen, n) == Some(pos + |PrintFields(Field(key, value, rest))| + 1)
    decreases Field(key, value, rest), 0
  {
    ValueComplete(tokens, pos + 1, depth + 1, value);
    FieldsComplete(tokens, next, depth, seen + {key}, n + 1, rest);
    FieldRead(tokens, pos, depth, seen, n, key, value, rest, next);
  }

  lemma {:induction false} ValuesComplete(tokens: seq<Token>, pos: nat, depth: nat, count: nat, v: Values)
    requires BoundedValues(v, depth + 1) && count + CountValues(v) <= MAX_VALUES
    requires StandsAt(tokens, pos, PrintValues(v) + [CloseArray])
    ensures ReadValues(tokens, pos, depth, count) == Some(pos + |PrintValues(v)| + 1)
    decreases v
  {
    match v
    case NoValues => SplitStanding(tokens, pos, [], [CloseArray]);
    case Value(head, tail) =>
      var later := PrintValues(tail) + [CloseArray];
      assert PrintValues(v) + [CloseArray] == Print(head) + later;
      SplitStanding(tokens, pos, Print(head), later);
      FirstToken(head, depth + 1);
      assert tokens[pos] == Print(head)[0];
      ValueComplete(tokens, pos, depth + 1, head);
      ValuesComplete(tokens, pos + |Print(head)|, depth, count + 1, tail);
  }

  lemma FirstToken(t: Tree, depth: nat)
    requires Bounded(t, depth)
    ensures Print(t) != [] && Print(t)[0] != CloseObject && Print(t)[0] != CloseArray
  {}

  /** Accepted are exactly the printings of one bounded tree, with nothing after it. */
  lemma AcceptedExactly(tokens: seq<Token>)
    ensures Accepted(tokens) <==> exists t :: Bounded(t, 0) && Print(t) == tokens
  {
    if Accepted(tokens) {
      var t := ValueSound(tokens, 0, 0);
      assert tokens[0..|tokens|] == tokens;
    }
    if t :| Bounded(t, 0) && Print(t) == tokens {
      assert tokens[0..|tokens|] == tokens;
      ValueComplete(tokens, 0, 0, t);
    }
  }

  // ---------- the check as it runs ----------

  class Decoder {
    const tokens: seq<Token>
    var pos: nat

    constructor (tokens: seq<Token>)
      ensures this.tokens == tokens && pos == 0
    {
      this.tokens := tokens;
      pos := 0;
    }

    /** The next token; Bad at the end of the input. */
    method Next() returns (token: Token)
      modifies this`pos
      ensures token == (if old(pos) < |tokens| then tokens[old(pos)] else Bad)
      ensures pos == if old(pos) < |tokens| then old(pos) + 1 else old(pos)
    {
      if pos >= |tokens| {
        return Bad;
      }
      token := tokens[pos];
      pos := pos + 1;
    }

    predicate HasMore()
      reads this`pos
    {
      More(tokens, pos)
    }

    /** Consumes one value. It stops at a position exactly when the function above does. */
    method Consume(depth: nat) returns (ok: bool)
      modifies this`pos
      ensures ok <==> ReadValue(tokens, old(pos), depth).Some?
      ensures ok ==> pos == ReadValue(tokens, old(pos), depth).value
      ensures old(pos) <= pos
      decreases |tokens| - pos, 1
    {
      if depth > MAX_DEPTH {
        return false;
      }
      var token := Next();
      match token
      case OpenObject => ok := ConsumeObject(depth);
      case OpenArray => ok := ConsumeArray(depth);
      case CloseObject => ok := false;
      case CloseArray => ok := false;
      case Bad => ok := false;
      case _ => ok := true;
    }

    method ConsumeObject(depth: nat) returns (ok: bool)
      modifies this`pos
      ensures ok <==> ReadFields(tokens, old(pos), depth, {}, 0).Some?
      ensures ok ==> pos == ReadFields(tokens, old(pos), depth, {}, 0).value
      ensures old(pos) <= pos
      decreases |tokens| - pos, 0
    {
      var seen: set<string> := {};
      while HasMore()
        invariant old(pos) <= pos
        invariant ReadFields(tokens, old(pos), depth, {}, 0) == ReadFields(tokens, pos, depth, seen, |seen|)
        decreases |tokens| - pos
      {
        var key := Next();
        if !key.Text? || !CanonicalKey(key.value) || key.value in seen || |seen| >= MAX_KEYS {
          return false;
        }
        seen := seen + {key.value};
        ok := Consume(depth + 1);
        if !ok {
          return;
        }
      }
      var end := Next();
      ok := end.CloseObject?;
    }

    method ConsumeArray(depth: nat) returns (ok: bool)
      modifies this`pos
      ensures ok <==> ReadValues(tokens, old(pos), depth, 0).Some?
      ensures ok ==> pos == ReadValues(tokens, old(pos), depth, 0).value
      ensures old(pos) <= pos
      decreases |tokens| - pos, 2
    {
      var count := 0;
      while HasMore()
        invariant old(pos) <= pos
        invariant ReadValues(tokens, old(pos), depth, 0) == ReadValues(tokens, pos, depth, count)
        decreases |tokens| - pos
      {
        if count >= MAX_VALUES {
          return false;
        }
        ok := Consume(depth + 1);
        if !ok {
          return;
        }
        count := count + 1;
      }
      var end := Next();
      ok := end.CloseArray?;
    }
  }

  /** The whole check: one value and then the end of the input. */
  method ValidateStructure(tokens: seq<Token>) returns (ok: bool)
    ensures ok <==> exists t :: Bounded(t, 0) && Print(t) == tokens
  {
    var decoder := new Decoder(tokens);
    ok := decoder.Consume(0);
    ok := ok && decoder.pos == |tokens|;
    AcceptedExactly(tokens);
  }
}
