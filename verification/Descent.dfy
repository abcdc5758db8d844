// One record: the rule machine on `val` is a recursive descent, and the
// descent reads exactly the token lists of trees.

module Descent {
  import opened Text
  import opened Trees
  import opened Lexer
  import opened Grammar

  // The tokens a tree is spelled with, whatever space is between them.
  function TreeTokens(t: Tree): seq<Token>
    decreases t
  {
    match t
    case Leaf(scalar) => [Value(scalar)]
    case Arr(items) => [OpenSquare] + ItemTokens(items) + [CloseSquare]
    case Obj(members) => [OpenBrace] + MemberTokens(members) + [CloseBrace]
  }

  function ItemTokens(items: seq<Tree>): seq<Token>
    decreases items
  {
    if items == [] then []
    else TreeTokens(items[0]) + (if |items| == 1 then [] else [Token.Comma] + ItemTokens(items[1..]))
  }

  function MemberTokens(members: seq<Member>): seq<Token>
    decreases members
  {
    if members == [] then []
    else [Value(Str(members[0].name)), Token.Colon] + TreeTokens(members[0].value) +
         (if |members| == 1 then [] else [Token.Comma] + MemberTokens(members[1..]))
  }

  // The descent: what was read and the tokens left, or the tokens it is stuck at.
  datatype Parsed<T> = Parsed(value: T, rest: seq<Token>) | Stuck(at: seq<Token>)

  function ParseValue(tokens: seq<Token>): (r: Parsed<Tree>)
    ensures r.Parsed? ==> |r.rest| < |tokens|
    decreases |tokens|, 1
  {
    if tokens == [] then Stuck(tokens)
    else match tokens[0]
      case Value(scalar) => Parsed(Leaf(scalar), tokens[1..])
      case OpenBrace =>
        if |tokens| > 1 && tokens[1] == CloseBrace then Parsed(Obj([]), tokens[2..])
        else (match ParsePairs(tokens[1..])
              case Stuck(at) => Stuck(at)
              case Parsed(members, rest) => Parsed(Obj(members), rest[1..]))
      case OpenSquare =>
        if |tokens| > 1 && tokens[1] == CloseSquare then Parsed(Arr([]), tokens[2..])
        else (match ParseElems(tokens[1..])
              case Stuck(at) => Stuck(at)
              case Parsed(items, rest) => Parsed(Arr(items), rest[1..]))
      case _ => Stuck(tokens)
  }

  // Pairs up to the brace that ends them, which is left.
  function ParsePairs(tokens: seq<Token>): (r: Parsed<seq<Member>>)
    ensures r.Parsed? ==> |r.rest| < |tokens| && r.rest != [] && r.rest[0] == CloseBrace && r.value != []
    decreases |tokens|, 0
  {
    if |tokens| < 2 || !tokens[0].Value? || !tokens[0].scalar.Str? || tokens[1] != Token.Colon then Stuck(tokens)
    else match ParseValue(tokens[2..])
      case Stuck(at) => Stuck(at)
      case Parsed(t, rest) =>
        var m := Member(tokens[0].scalar.s, t);
        if rest == [] then Stuck(rest)
        else if rest[0] == CloseBrace then Parsed([m], rest)
        else if rest[0] != Token.Comma then Stuck(rest)
        else match ParsePairs(rest[1..])
          case Stuck(at) => Stuck(at)
          case Parsed(members, rest') => Parsed([m] + members, rest')
  }

  function ParseElems(tokens: seq<Token>): (r: Parsed<seq<Tree>>)
    ensures r.Parsed? ==> |r.rest| < |tokens| && r.rest != [] && r.rest[0] == CloseSquare && r.value != []
    decreases |tokens|, 2
  {
    match ParseValue(tokens)
    case Stuck(at) => Stuck(at)
    case Parsed(t, rest) =>
      if rest == [] then Stuck(rest)
      else if rest[0] == CloseSquare then Parsed([t], rest)
      else if rest[0] != Token.Comma then Stuck(rest)
      else match ParseElems(rest[1..])
        case Stuck(at) => Stuck(at)
        case Parsed(items, rest') => Parsed([t] + items, rest')
  }

  // Soundness: what is read is a tree's tokens.
  lemma {:induction false} ParseValueSound(tokens: seq<Token>)
    requires ParseValue(tokens).Parsed?
    ensures tokens == TreeTokens(ParseValue(tokens).value) + ParseValue(tokens).rest
    decreases |tokens|, 1
  {
    match tokens[0]
    case Value(_) =>
    case OpenBrace =>
      if |tokens| > 1 && tokens[1] == CloseBrace {
        assert TreeTokens(Obj([])) == [OpenBrace, CloseBrace];
      } else {
        ParsePairsSound(tokens[1..]);
        Bracketed(tokens, OpenBrace, MemberTokens(ParsePairs(tokens[1..]).value), ParsePairs(tokens[1..]).rest);
      }
    case OpenSquare =>
      if |tokens| > 1 && tokens[1] == CloseSquare {
        assert TreeTokens(Arr([])) == [OpenSquare, CloseSquare];
      } else {
        ParseElemsSound(tokens[1..]);
        Bracketed(tokens, OpenSquare, ItemTokens(ParseElems(tokens[1..]).value), ParseElems(tokens[1..]).rest);
      }
    case _ =>
  }

  lemma Bracketed(tokens: seq<Token>, open: Token, middle: seq<Token>, rest: seq<Token>)
    requires tokens != [] && tokens[0] == open && rest != [] && tokens[1..] == middle + rest
    ensures tokens == [open] + middle + [rest[0]] + rest[1..]
  {
    assert tokens == [tokens[0]] + tokens[1..];
    assert rest == [rest[0]] + rest[1..];
  }

  lemma {:induction false} ParsePairsSound(tokens: seq<Token>)
    requires ParsePairs(tokens).Parsed?
    ensures tokens == MemberTokens(ParsePairs(tokens).value) + ParsePairs(tokens).rest
    decreases |tokens|, 0
  {
    var head := [tokens[0], tokens[1]];
    assert tokens == head + tokens[2..];
    ParseValueSound(tokens[2..]);
    var t, rest := ParseValue(tokens[2..]).value, ParseValue(tokens[2..]).rest;
    var m := Member(tokens[0].scalar.s, t);
    Assoc(head, TreeTokens(t), rest);
    if rest[0] == Token.Comma {
      ParsePairsSound(rest[1..]);
      var more := ParsePairs(rest[1..]);
      assert rest == [Token.Comma] + rest[1..];
      Assoc([Token.Comma], MemberTokens(more.value), more.rest);
      assert ([m] + more.value)[1..] == more.value;
      Assoc(head + TreeTokens(t), [Token.Comma] + MemberTokens(more.value), more.rest);
    } else {
      assert head + TreeTokens(t) + [] == head + TreeTokens(t);
    }
  }

  lemma {:induction false} ParseElemsSound(tokens: seq<Token>)
    requires ParseElems(tokens).Parsed?
    ensures tokens == ItemTokens(ParseElems(tokens).value) + ParseElems(tokens).rest
    decreases |tokens|, 2
  {
    ParseValueSound(tokens);
    var t, rest := ParseValue(tokens).value, ParseValue(tokens).rest;
    if rest[0] == Token.Comma {
      ParseElemsSound(rest[1..]);
      var more := ParseElems(rest[1..]);
      assert rest == [Token.Comma] + rest[1..];
      Assoc([Token.Comma], ItemTokens(more.value), more.rest);
      assert ([t] + more.value)[1..] == more.value;
      Assoc(TreeTokens(t), [Token.Comma] + ItemTokens(more.value), more.rest);
    } else {
      assert TreeTokens(t) + [] == TreeTokens(t);
    }
  }

  lemma TreeTokensStart(t: Tree)
    ensures TreeTokens(t) != [] && TreeTokens(t)[0] != CloseSquare && TreeTokens(t)[0] != CloseBrace
  {
  }

  lemma ItemTokensStart(items: seq<Tree>)
    requires items != []
    ensures ItemTokens(items) != [] && ItemTokens(items)[0] != CloseSquare
  {
  }

  lemma MemberTokensStart(members: seq<Member>)
    requires members != []
    ensures MemberTokens(members) != [] && MemberTokens(members)[0] != CloseBrace
  {
  }

  // Completeness: every tree's tokens are read, whatever follows them.
  lemma {:induction false} ParseValueComplete(t: Tree, rest: seq<Token>)
    ensures ParseValue(TreeTokens(t) + rest) == Parsed(t, rest)
    decreases t
  {
    match t
    case Leaf(scalar) => Front(Value(scalar), rest);
    case Arr(items) =>
      if items == [] {
        Front2(OpenSquare, CloseSquare, rest);
        assert TreeTokens(t) + rest == [OpenSquare, CloseSquare] + rest;
      } else {
        ParseElemsComplete(items, rest);
        ArrComplete(items, rest);
      }
    case Obj(members) =>
      if members == [] {
        Front2(OpenBrace, CloseBrace, rest);
        assert TreeTokens(t) + rest == [OpenBrace, CloseBrace] + rest;
      } else {
        ParsePairsComplete(members, rest);
        ObjComplete(members, rest);
      }
  }

  lemma BracketedRest(open: Token, middle: seq<Token>, close: Token, rest: seq<Token>)
    ensures [open] + middle + [close] + rest == [open] + (middle + ([close] + rest))
    ensures middle != [] ==> (middle + ([close] + rest))[0] == middle[0]
  {
  }

  lemma ArrComplete(items: seq<Tree>, rest: seq<Token>)
    requires items != []
    requires ParseElems(ItemTokens(items) + ([CloseSquare] + rest)) == Parsed(items, [CloseSquare] + rest)
    ensures ParseValue(TreeTokens(Arr(items)) + rest) == Parsed(Arr(items), rest)
  {
    hide ItemTokens, ParseElems;
    BracketedRest(OpenSquare, ItemTokens(items), CloseSquare, rest);
    Front(OpenSquare, ItemTokens(items) + ([CloseSquare] + rest));
    Front(CloseSquare, rest);
    ItemTokensStart(items);
  }

  lemma ObjComplete(members: seq<Member>, rest: seq<Token>)
    requires members != []
    requires ParsePairs(MemberTokens(members) + ([CloseBrace] + rest)) == Parsed(members, [CloseBrace] + rest)
    ensures ParseValue(TreeTokens(Obj(members)) + rest) == Parsed(Obj(members), rest)
  {
    hide MemberTokens, ParsePairs;
    BracketedRest(OpenBrace, MemberTokens(members), CloseBrace, rest);
    Front(OpenBrace, MemberTokens(members) + ([CloseBrace] + rest));
    Front(CloseBrace, rest);
    MemberTokensStart(members);
  }

  lemma {:induction false} ParseElemsComplete(items: seq<Tree>, rest: seq<Token>)
    requires items != []
    ensures ParseElems(ItemTokens(items) + ([CloseSquare] + rest)) == Parsed(items, [CloseSquare] + rest)
    decreases items
  {
    var end := [CloseSquare] + rest;
    if |items| == 1 {
      assert ItemTokens(items) == TreeTokens(items[0]);
      assert items == [items[0]];
      ParseValueComplete(items[0], end);
    } else {
      var more := ItemTokens(items[1..]);
      Assoc(TreeTokens(items[0]), [Token.Comma] + more, end);
      Assoc([Token.Comma], more, end);
      ParseValueComplete(items[0], [Token.Comma] + (more + end));
      Front(Token.Comma, more + end);
      ParseElemsComplete(items[1..], rest);
      assert items == [items[0]] + items[1..];
    }
  }

  // One pair and what follows its value.
  lemma ParsePairsFirst(name: Text, t: Tree, after: seq<Token>)
    requires ParseValue(TreeTokens(t) + after) == Parsed(t, after)
    ensures ParsePairs([Value(Str(name)), Token.Colon] + (TreeTokens(t) + after)) ==
            if after == [] then Stuck(after)
            else if after[0] == CloseBrace then Parsed([Member(name, t)], after)
            else if after[0] != Token.Comma then Stuck(after)
            else match ParsePairs(after[1..])
              case Stuck(at) => Stuck(at)
              case Parsed(members, rest') => Parsed([Member(name, t)] + members, rest')
  {
    hide TreeTokens, ParseValue;
    Front2(Value(Str(name)), Token.Colon, TreeTokens(t) + after);
  }

  lemma {:induction false} ParsePairsComplete(members: seq<Member>, rest: seq<Token>)
    requires members != []
    ensures ParsePairs(MemberTokens(members) + ([CloseBrace] + rest)) == Parsed(members, [CloseBrace] + rest)
    decreases members
  {
    var end := [CloseBrace] + rest;
    var name, t := members[0].name, members[0].value;
    var head := [Value(Str(name)), Token.Colon];
    assert members[0] == Member(name, t);
    if |members| == 1 {
      ParseValueComplete(t, end);
      ParsePairsFirst(name, t, end);
      assert members == [members[0]];
      assert MemberTokens(members) == head + TreeTokens(t);
      Assoc(head, TreeTokens(t), end);
    } else {
      var more := MemberTokens(members[1..]);
      var after := [Token.Comma] + (more + end);
      ParseValueComplete(t, after);
      ParsePairsFirst(name, t, after);
      Front(Token.Comma, more + end);
      ParsePairsComplete(members[1..], rest);
      assert members == [members[0]] + members[1..];
      hide ParsePairs, ParseValue;
      assert MemberTokens(members) == head + TreeTokens(t) + ([Token.Comma] + more);
      hide MemberTokens, TreeTokens;
      Assoc(head + TreeTokens(t), [Token.Comma] + more, end);
      Assoc([Token.Comma], more, end);
      Assoc(head, TreeTokens(t), after);
    }
  }

  // A tree is its tokens.
  lemma TreeTokensInjective(a: Tree, b: Tree)
    requires TreeTokens(a) == TreeTokens(b)
    ensures a == b
  {
    ParseValueComplete(a, []);
    ParseValueComplete(b, []);
  }

  // No tree is spelled with a #LN.
  lemma {:induction false} TreeTokensOneLine(t: Tree)
    ensures Line !in TreeTokens(t) && Bad !in TreeTokens(t)
    decreases t
  {
    match t
    case Leaf(_) =>
    case Arr(items) => ItemTokensOneLine(items);
    case Obj(members) => MemberTokensOneLine(members);
  }

  lemma {:induction false} ItemTokensOneLine(items: seq<Tree>)
    ensures Line !in ItemTokens(items) && Bad !in ItemTokens(items)
    decreases items
  {
    if items != [] {
      TreeTokensOneLine(items[0]);
      ItemTokensOneLine(items[1..]);
    }
  }

  lemma {:induction false} MemberTokensOneLine(members: seq<Member>)
    ensures Line !in MemberTokens(members) && Bad !in MemberTokens(members)
    decreases members
  {
    if members != [] {
      TreeTokensOneLine(members[0].value);
      MemberTokensOneLine(members[1..]);
    }
  }

  // Where the descent is stuck, it took no #LN on the way.
  ghost predicate StuckWithin(tokens: seq<Token>, at: seq<Token>) {
    |at| <= |tokens| && tokens[|tokens| - |at|..] == at && Line !in tokens[..|tokens| - |at|]
  }

  lemma StuckLater(tokens: seq<Token>, taken: seq<Token>, rest: seq<Token>, at: seq<Token>)
    requires tokens == taken + rest && Line !in taken && StuckWithin(rest, at)
    ensures StuckWithin(tokens, at)
  {
    var k := |rest| - |at|;
    assert tokens[|taken| + k..] == rest[k..];
    assert tokens[..|taken| + k] == taken + rest[..k];
  }

  lemma {:induction false} ParseValueStuck(tokens: seq<Token>)
    requires ParseValue(tokens).Stuck?
    ensures StuckWithin(tokens, ParseValue(tokens).at)
    decreases |tokens|, 1
  {
    if tokens != [] && (tokens[0] == OpenBrace || tokens[0] == OpenSquare) {
      assert tokens == [tokens[0]] + tokens[1..];
      if tokens[0] == OpenBrace {
        ParsePairsStuck(tokens[1..]);
      } else {
        ParseElemsStuck(tokens[1..]);
      }
      StuckLater(tokens, [tokens[0]], tokens[1..], ParseValue(tokens).at);
    }
  }

  lemma {:induction false} ParsePairsStuck(tokens: seq<Token>)
    requires ParsePairs(tokens).Stuck?
    ensures StuckWithin(tokens, ParsePairs(tokens).at)
    decreases |tokens|, 0
  {
    if ParsePairs(tokens).at != tokens {
      var head := [tokens[0], tokens[1]];
      assert tokens == head + tokens[2..];
      match ParseValue(tokens[2..])
      case Stuck(at) =>
        ParseValueStuck(tokens[2..]);
        StuckLater(tokens, head, tokens[2..], at);
      case Parsed(t, rest) =>
        ParseValueSound(tokens[2..]);
        TreeTokensOneLine(t);
        Assoc(head, TreeTokens(t), rest);
        MoreStuck(tokens, head + TreeTokens(t), rest, ParsePairs(tokens).at);
        if rest != [] && rest[0] == Token.Comma {
          ParsePairsStuck(rest[1..]);
          MoreStuckLater(tokens, head + TreeTokens(t), rest, ParsePairs(tokens).at);
        }
    }
  }

  lemma {:induction false} ParseElemsStuck(tokens: seq<Token>)
    requires ParseElems(tokens).Stuck?
    ensures StuckWithin(tokens, ParseElems(tokens).at)
    decreases |tokens|, 2
  {
    match ParseValue(tokens)
    case Stuck(at) => ParseValueStuck(tokens);
    case Parsed(t, rest) =>
      ParseValueSound(tokens);
      TreeTokensOneLine(t);
      MoreStuck(tokens, TreeTokens(t), rest, ParseElems(tokens).at);
      if rest != [] && rest[0] == Token.Comma {
        ParseElemsStuck(rest[1..]);
        MoreStuckLater(tokens, TreeTokens(t), rest, ParseElems(tokens).at);
      }
  }

  lemma MoreStuck(tokens: seq<Token>, taken: seq<Token>, rest: seq<Token>, at: seq<Token>)
    requires tokens == taken + rest && Line !in taken
    ensures at == rest ==> StuckWithin(tokens, at)
  {
    if at == rest {
      assert StuckWithin(rest, rest);
      StuckLater(tokens, taken, rest, at);
    }
  }

  lemma MoreStuckLater(tokens: seq<Token>, taken: seq<Token>, rest: seq<Token>, at: seq<Token>)
    requires tokens == taken + rest && Line !in taken
    requires rest != [] && rest[0] == Token.Comma && StuckWithin(rest[1..], at)
    ensures StuckWithin(tokens, at)
  {
    assert rest == [Token.Comma] + rest[1..];
    assert tokens == taken + [Token.Comma] + rest[1..];
    StuckLater(tokens, taken + [Token.Comma], rest[1..], at);
  }
}
