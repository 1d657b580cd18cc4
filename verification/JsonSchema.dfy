/**
  The validation of a state file before a restore: one JSON object, nothing after it, and no object
  at any depth with two names that are equal in lower case.
*/
module JsonSchema {
  import opened Wrappers

  /** What the decoder reads next. Bad stands for any lexical error or missing punctuation. */
  datatype Token = OpenObject | CloseObject | OpenArray | CloseArray | Text(text: string) | Literal(text: string) | Bad

  datatype Value = Scalar(text: string) | Str(text: string) | Array(items: Items) | Object(members: Members)
  datatype Items = NoItems | Item(head: Value, tail: Items)
  datatype Members = NoMembers | Member(name: string, value: Value, tail: Members)

  type Lower = string -> string

  // ----- documents -----

  function Tokens(v: Value): (ts: seq<Token>)
    ensures |ts| > 0
  {
    match v
    case Scalar(text) => [Literal(text)]
    case Str(text) => [Text(text)]
    case Array(items) => [OpenArray] + ItemTokens(items)
    case Object(members) => [OpenObject] + MemberTokens(members)
  }

  function ItemTokens(items: Items): seq<Token> {
    match items
    case NoItems => [CloseArray]
    case Item(head, tail) => Tokens(head) + ItemTokens(tail)
  }

  function MemberTokens(members: Members): seq<Token> {
    match members
    case NoMembers => [CloseObject]
    case Member(name, value, tail) => [Text(name)] + Tokens(value) + MemberTokens(tail)
  }

  function FoldedNames(members: Members, lower: Lower): seq<string> {
    match members
    case NoMembers => []
    case Member(name, _, tail) => [lower(name)] + FoldedNames(tail, lower)
  }

  predicate Distinct(names: seq<string>) {
    forall i, j :: 0 <= i < j < |names| ==> names[i] != names[j]
  }

  /** No object in the value has two names that are equal in lower case. */
  predicate Unique(v: Value, lower: Lower) {
    match v
    case Array(items) => UniqueItems(items, lower)
    case Object(members) => Distinct(FoldedNames(members, lower)) && UniqueValues(members, lower)
    case _ => true
  }

  predicate UniqueItems(items: Items, lower: Lower) {
    items.Item? ==> Unique(items.head, lower) && UniqueItems(items.tail, lower)
  }

  predicate UniqueValues(members: Members, lower: Lower) {
    members.Member? ==> Unique(members.value, lower) && UniqueValues(members.tail, lower)
  }

  // ----- what the validator reads -----

  /** What is left of the tokens after one accepted value. */
  function AfterValue(ts: seq<Token>, lower: Lower): (rest: Option<seq<Token>>)
    ensures rest.Some? ==> |rest.value| < |ts| && rest.value == ts[|ts| - |rest.value|..]
    decreases |ts|, 0
  {
    if ts == [] then None
    else match ts[0]
      case Text(_) => Some(ts[1..])
      case Literal(_) => Some(ts[1..])
      case OpenObject => AfterMembers(ts[1..], {}, lower)
      case OpenArray => AfterItems(ts[1..], lower)
      case _ => None
  }

  function AfterItems(ts: seq<Token>, lower: Lower): (rest: Option<seq<Token>>)
    ensures rest.Some? ==> |rest.value| < |ts| && rest.value == ts[|ts| - |rest.value|..]
    decreases |ts|, 1
  {
    if ts == [] then None
    else if ts[0].CloseArray? then Some(ts[1..])
    else if ts[0].CloseObject? then None
    else
      var rest := AfterValue(ts, lower);
      if rest.None? then None else AfterItems(rest.value, lower)
  }

  function AfterMembers(ts: seq<Token>, seen: set<string>, lower: Lower): (rest: Option<seq<Token>>)
    ensures rest.Some? ==> |rest.value| < |ts| && rest.value == ts[|ts| - |rest.value|..]
    decreases |ts|, 1
  {
    if ts == [] then None
    else if ts[0].CloseObject? then Some(ts[1..])
    else if !ts[0].Text? || lower(ts[0].text) in seen then None
    else
      var rest := AfterValue(ts[1..], lower);
      if rest.None? then None else AfterMembers(rest.value, seen + {lower(ts[0].text)}, lower)
  }

  predicate Accepted(ts: seq<Token>, lower: Lower) {
    ts != [] && ts[0].OpenObject? && AfterMembers(ts[1..], {}, lower) == Some([])
  }

  // ----- the validator -----

  class Decoder {
    const tokens: seq<Token>
    var pos: nat

    predicate Valid()
      reads this
    {
      pos <= |tokens|
    }

    function Left(): seq<Token>
      requires Valid()
      reads this
    {
      tokens[pos..]
    }

    constructor (tokens: seq<Token>)
      ensures Valid() && this.tokens == tokens && pos == 0
    {
      this.tokens, pos := tokens, 0;
    }

    /** Token: None is an error. */
    method Next() returns (t: Option<Token>)
      requires Valid()
      modifies this
      ensures Valid()
      ensures t == if old(pos) < |tokens| && tokens[old(pos)] != Bad then Some(tokens[old(pos)]) else None
      ensures pos == if t.Some? then old(pos) + 1 else old(pos)
    {
      if pos == |tokens| || tokens[pos].Bad? {
        return None;
      }
      t := Some(tokens[pos]);
      pos := pos + 1;
    }

    predicate More()
      requires Valid()
      reads this
    {
      pos < |tokens| && !tokens[pos].CloseObject? && !tokens[pos].CloseArray?
    }

    method ValidateValue(lower: Lower) returns (ok: bool)
      requires Valid()
      modifies this
      ensures Valid() && pos >= old(pos)
      ensures ok == AfterValue(old(Left()), lower).Some?
      ensures ok ==> pos > old(pos) && AfterValue(old(Left()), lower) == Some(Left())
      decreases |tokens| - pos, 0
    {
      var token := Next();
      if token.None? {
        return false;
      }
      assert old(Left())[1..] == Left();
      match token.value
      case OpenObject => ok := ValidateObjectContents(lower);
      case OpenArray => ok := ValidateItems(lower);
      case CloseObject => ok := false;
      case CloseArray => ok := false;
      case _ => ok := true;
    }

    /** The array branch of validateJSONValue. */
    method ValidateItems(lower: Lower) returns (ok: bool)
      requires Valid()
      modifies this
      ensures Valid() && pos >= old(pos)
      ensures ok == AfterItems(old(Left()), lower).Some?
      ensures ok ==> pos > old(pos) && AfterItems(old(Left()), lower) == Some(Left())
      decreases |tokens| - pos, 1
    {
      while More()
        invariant Valid() && pos >= old(pos)
        invariant AfterItems(old(Left()), lower) == AfterItems(Left(), lower)
        decreases |tokens| - pos
      {
        var item := ValidateValue(lower);
        if !item {
          return false;
        }
      }
      ghost var left := Left();
      var closing := Next();
      assert closing.Some? ==> left[1..] == Left();
      return closing == Some(CloseArray);
    }

    method ValidateObjectContents(lower: Lower) returns (ok: bool)
      requires Valid()
      modifies this
      ensures Valid() && pos >= old(pos)
      ensures ok == AfterMembers(old(Left()), {}, lower).Some?
      ensures ok ==> pos > old(pos) && AfterMembers(old(Left()), {}, lower) == Some(Left())
      decreases |tokens| - pos, 1
    {
      var seen: set<string> := {};
      while More()
        invariant Valid() && pos >= old(pos)
        invariant AfterMembers(old(Left()), {}, lower) == AfterMembers(Left(), seen, lower)
        decreases |tokens| - pos
      {
        ghost var left := Left();
        var token := Next();
        if token.None? || !token.value.Text? {
          return false;
        }
        assert left[1..] == Left();
        var folded := lower(token.value.text);
        if folded in seen {
          return false;
        }
        seen := seen + {folded};
        var value := ValidateValue(lower);
        if !value {
          return false;
        }
      }
      ghost var left := Left();
      var closing := Next();
      assert closing.Some? ==> left[1..] == Left();
      return closing == Some(CloseObject);
    }
  }

  /** decodeJSONObjectUnique, up to reading the members that were validated. */
  method DecodeObjectUnique(tokens: seq<Token>, lower: Lower) returns (ok: bool)
    ensures ok == Accepted(tokens, lower)
  {
    var decoder := new Decoder(tokens);
    var token := decoder.Next();
    if token.None? || !token.value.OpenObject? {
      return false;
    }
    assert decoder.Left() == tokens[1..];
    var valid := decoder.ValidateObjectContents(lower);
    if !valid {
      return false;
    }
    // anything left, well formed or not, is trailing data
    return decoder.pos == |tokens|;
  }

  // ----- tokens and documents -----

  lemma Cons(t: Token, a: seq<Token>, b: seq<Token>)
    ensures ([t] + a + b)[0] == t && ([t] + a + b)[1..] == a + b
  {
  }

  /** Reading a document's tokens ends exactly behind them if its names are unique, and fails if
      they are not, whatever follows. */
  lemma {:induction false} ValueIsRead(v: Value, rest: seq<Token>, lower: Lower)
    ensures AfterValue(Tokens(v) + rest, lower) == if Unique(v, lower) then Some(rest) else None
    decreases v
  {
    match v
    case Scalar(text) => Cons(Literal(text), [], rest);
    case Str(text) => Cons(Text(text), [], rest);
    case Array(items) =>
      Cons(OpenArray, ItemTokens(items), rest);
      ItemsAreRead(items, rest, lower);
    case Object(members) =>
      Cons(OpenObject, MemberTokens(members), rest);
      MembersAreRead(members, {}, rest, lower);
  }

  lemma StartsValue(v: Value, rest: seq<Token>)
    ensures var t := (Tokens(v) + rest)[0]; !t.CloseArray? && !t.CloseObject?
  {
    match v
    case Scalar(text) => Cons(Literal(text), [], rest);
    case Str(text) => Cons(Text(text), [], rest);
    case Array(items) => Cons(OpenArray, ItemTokens(items), rest);
    case Object(members) => Cons(OpenObject, MemberTokens(members), rest);
  }

  lemma {:induction false} ItemsAreRead(items: Items, rest: seq<Token>, lower: Lower)
    ensures AfterItems(ItemTokens(items) + rest, lower) == if UniqueItems(items, lower) then Some(rest) else None
    decreases items
  {
    match items
    case NoItems => Cons(CloseArray, [], rest);
    case Item(head, tail) =>
      assert ItemTokens(items) + rest == Tokens(head) + (ItemTokens(tail) + rest);
      StartsValue(head, ItemTokens(tail) + rest);
      ValueIsRead(head, ItemTokens(tail) + rest, lower);
      ItemsAreRead(tail, rest, lower);
  }

  predicate Fresh(names: seq<string>, seen: set<string>) {
    Distinct(names) && forall i :: 0 <= i < |names| ==> names[i] !in seen
  }

  lemma {:induction false} MembersAreRead(members: Members, seen: set<string>, rest: seq<Token>, lower: Lower)
    ensures AfterMembers(MemberTokens(members) + rest, seen, lower) ==
            if Fresh(FoldedNames(members, lower), seen) && UniqueValues(members, lower) then Some(rest) else None
    decreases members
  {
    match members
    case NoMembers => Cons(CloseObject, [], rest);
    case Member(name, value, tail) =>
      var after := MemberTokens(tail) + rest;
      assert MemberTokens(members) + rest == [Text(name)] + Tokens(value) + after;
      Cons(Text(name), Tokens(value), after);
      ValueIsRead(value, after, lower);
      MembersAreRead(tail, seen + {lower(name)}, rest, lower);
      FreshTail(lower(name), FoldedNames(tail, lower), seen);
  }

  lemma FreshTail(name: string, names: seq<string>, seen: set<string>)
    ensures Fresh([name] + names, seen) <==> name !in seen && Fresh(names, seen + {name})
  {
    var all := [name] + names;
    forall i | 0 <= i < |names| ensures all[i + 1] == names[i] {
    }
    if Fresh(all, seen) {
      assert all[0] == name;
      forall i | 0 <= i < |names| ensures names[i] !in seen + {name} {
        assert all[i + 1] != all[0];
      }
      forall i, j | 0 <= i < j < |names| ensures names[i] != names[j] {
        assert all[i + 1] != all[j + 1];
      }
    }
  }

  lemma Associative(a: seq<Token>, b: seq<Token>, c: seq<Token>)
    ensures a + (b + c) == a + b + c
  {
  }

  lemma Regroup(t: Token, a: seq<Token>, b: seq<Token>, c: seq<Token>)
    ensures [t] + (a + b) == [t] + a + b
    ensures [t] + (a + (b + c)) == [t] + a + b + c
  {
  }

  /** Whatever is read is a document: the tokens taken are those of a value with unique names. */
  lemma {:induction false} ReadIsValue(ts: seq<Token>, lower: Lower) returns (v: Value)
    requires AfterValue(ts, lower).Some?
    ensures Unique(v, lower) && ts == Tokens(v) + AfterValue(ts, lower).value
    ensures v.Object? <==> ts[0].OpenObject?
    decreases |ts|, 0
  {
    assert ts == [ts[0]] + ts[1..];
    match ts[0]
    case Text(text) => v := Str(text);
    case Literal(text) => v := Scalar(text);
    case OpenObject =>
      var members := ReadAreMembers(ts[1..], {}, lower);
      v := Object(members);
      Regroup(OpenObject, MemberTokens(members), AfterValue(ts, lower).value, []);
      assert Unique(v, lower);
    case OpenArray =>
      var items := ReadAreItems(ts[1..], lower);
      v := Array(items);
      Regroup(OpenArray, ItemTokens(items), AfterValue(ts, lower).value, []);
  }

  lemma {:induction false} ReadAreItems(ts: seq<Token>, lower: Lower) returns (items: Items)
    requires AfterItems(ts, lower).Some?
    ensures UniqueItems(items, lower) && ts == ItemTokens(items) + AfterItems(ts, lower).value
    decreases |ts|, 1
  {
    assert ts == [ts[0]] + ts[1..];
    if ts[0].CloseArray? {
      items := NoItems;
    } else {
      var head := ReadIsValue(ts, lower);
      var tail := ReadAreItems(AfterValue(ts, lower).value, lower);
      items := Item(head, tail);
      Associative(Tokens(head), ItemTokens(tail), AfterItems(ts, lower).value);
    }
  }

  lemma {:induction false} ReadAreMembers(ts: seq<Token>, seen: set<string>, lower: Lower) returns (members: Members)
    requires AfterMembers(ts, seen, lower).Some?
    ensures Fresh(FoldedNames(members, lower), seen) && UniqueValues(members, lower)
    ensures ts == MemberTokens(members) + AfterMembers(ts, seen, lower).value
    decreases |ts|, 1
  {
    assert ts == [ts[0]] + ts[1..];
    if ts[0].CloseObject? {
      members := NoMembers;
    } else {
      var name := ts[0].text;
      var value := ReadIsValue(ts[1..], lower);
      var tail := ReadAreMembers(AfterValue(ts[1..], lower).value, seen + {lower(name)}, lower);
      members := Member(name, value, tail);
      FreshTail(lower(name), FoldedNames(tail, lower), seen);
      Regroup(Text(name), Tokens(value), MemberTokens(tail), AfterMembers(ts, seen, lower).value);
      assert FoldedNames(members, lower) == [lower(name)] + FoldedNames(tail, lower);
    }
  }

  /** A token stream is accepted if and only if it is one object, and nothing else, in which no
      object at any depth has two names equal in lower case. */
  lemma AcceptedExactly(ts: seq<Token>, lower: Lower)
    ensures Accepted(ts, lower) <==> exists v: Value :: v.Object? && Unique(v, lower) && Tokens(v) == ts
  {
    if Accepted(ts, lower) {
      var v := ReadIsValue(ts, lower);
      assert Tokens(v) == ts;
    }
    if v: Value :| v.Object? && Unique(v, lower) && Tokens(v) == ts {
      ValueIsRead(v, [], lower);
      assert Tokens(v) + [] == ts;
    }
  }
}
