/** The recursive-descent reader of `.tres` files, working on the tokenizer's byte
    cursor. Each method is proved to do what the `GrammarSpec` function of the same
    name says of the bytes still to be read. */
module Parser {
  import opened Common
  import opened LexerSpec
  import opened Lexer
  import G = GodotData
  import GrammarSpec

  /** A method whose specification returns only the stream left over agrees with it. */
  predicate Reaches(r: Result<()>, spec: Result<seq<byte>>, rest: seq<byte>) {
    match spec
    case Ok(after) => r == Ok(()) && rest == after
    case Err(e) => r == Err(e)
  }

  /** The `match tokens.next_token()? { Some(want) => {}, … }` checks. */
  method Expect(t: Tokenizer, want: Token) returns (r: Result<()>)
    requires t.Valid()
    modifies t
    ensures t.Valid()
    ensures Reaches(r, GrammarSpec.Expect(old(t.Rest()), want), t.Rest())
  {
    var token := t.NextToken();
    match token
    case Err(e) => return Err(e);
    case Ok(None) => return Err(UnexpectedEnd);
    case Ok(Some(k)) =>
      if k == want {
        return Ok(());
      }
      return Err(UnexpectedToken);
  }

  /** `parse_int_constructor` and `parse_double_constructor`, which differ only in the
      arguments they accept: `arg` is `GrammarSpec.IntArg` or `GrammarSpec.DoubleArg`. */
  method ParseArgs<T>(t: Tokenizer, arg: Token -> Option<T>) returns (r: Result<seq<T>>)
    requires t.Valid()
    modifies t
    ensures t.Valid()
    ensures Agrees(r, GrammarSpec.ParseArgs(arg, old(t.Rest())), t.Rest())
  {
    var open := Expect(t, ParenthesisOpen);
    if open.Err? {
      return Err(open.error);
    }
    ghost var start := t.Rest();
    var args: seq<T> := [];
    while true
      invariant t.Valid()
      invariant GrammarSpec.ArgsLoop(arg, args, t.Rest()) == GrammarSpec.ArgsLoop(arg, [], start)
      decreases |t.Rest()|
    {
      ghost var s := t.Rest();
      if args != [] {
        var sep := t.NextToken();
        match sep
        case Err(e) => return Err(e);
        case Ok(None) => return Err(UnexpectedEnd);
        case Ok(Some(k)) =>
          if k == ParenthesisClose {
            return Ok(args);
          } else if k != Comma {
            return Err(UnexpectedToken);
          }
      }
      assert GrammarSpec.ArgsLoop(arg, args, s) == GrammarSpec.ArgValue(arg, args, t.Rest());
      var token := t.NextToken();
      match token
      case Err(e) => return Err(e);
      case Ok(None) => return Err(UnexpectedEnd);
      case Ok(Some(k)) =>
        match arg(k)
        case Some(v) =>
          args := args + [v];
        case None =>
          if k == ParenthesisClose && args == [] {
            return Ok(args);
          }
          return Err(UnexpectedToken);
    }
  }

  /** The `( "id" )` that follows `SubResource` and `ExtResource`. */
  method ResourceId(t: Tokenizer) returns (r: Result<string>)
    requires t.Valid()
    modifies t
    ensures t.Valid()
    ensures Agrees(r, GrammarSpec.ResourceId(old(t.Rest())), t.Rest())
  {
    var open := Expect(t, ParenthesisOpen);
    if open.Err? {
      return Err(open.error);
    }
    var token := t.NextToken();
    match token
    case Err(e) => return Err(e);
    case Ok(None) => return Err(UnexpectedEnd);
    case Ok(Some(k)) =>
      if !k.String? {
        return Err(UnexpectedToken);
      }
      var close := Expect(t, ParenthesisClose);
      if close.Err? {
        return Err(close.error);
      }
      return Ok(k.s);
  }

  /** The identifier arm of `Value::parse`. */
  method NamedValue(t: Tokenizer, id: string) returns (r: Result<G.Value>)
    requires t.Valid()
    modifies t
    ensures t.Valid()
    ensures Agrees(r, GrammarSpec.NamedValue(id, old(t.Rest())), t.Rest())
  {
    if id == "true" {
      return Ok(G.Bool(true));
    } else if id == "false" {
      return Ok(G.Bool(false));
    } else if id == "null" || id == "nil" {
      return Ok(G.Null);
    } else if id == "inf" {
      return Ok(G.Double(G.Infinity));
    } else if id == "neg_inf" {
      return Ok(G.Double(G.NegInfinity));
    } else if id == "nan" {
      return Ok(G.Double(G.NaN));
    } else if id == "Vector2i" {
      var args := ParseArgs(t, GrammarSpec.IntArg);
      if args.Err? {
        return Err(args.error);
      } else if |args.value| != 2 {
        return Err(WrongArity);
      }
      return Ok(G.Vector2i(G.Vec2i(args.value[0], args.value[1])));
    } else if id == "Color" {
      var args := ParseArgs(t, GrammarSpec.DoubleArg);
      if args.Err? {
        return Err(args.error);
      } else if |args.value| != 4 {
        return Err(WrongArity);
      }
      return Ok(G.Color(G.Rgba(args.value[0], args.value[1], args.value[2], args.value[3])));
    } else if id == "SubResource" {
      var res := ResourceId(t);
      if res.Err? {
        return Err(res.error);
      }
      return Ok(G.SubResource(res.value));
    } else if id == "ExtResource" {
      var res := ResourceId(t);
      if res.Err? {
        return Err(res.error);
      }
      return Ok(G.ExtResource(res.value));
    }
    return Err(UnsupportedValue);
  }

  /** `Value::parse`. */
  method ParseValue(t: Tokenizer) returns (r: Result<G.Value>)
    requires t.Valid()
    modifies t
    ensures t.Valid()
    ensures Agrees(r, GrammarSpec.ParseValue(old(t.Rest())), t.Rest())
  {
    var token := t.NextToken();
    match token
    case Err(e) => return Err(e);
    case Ok(None) => return Err(UnexpectedEnd);
    case Ok(Some(k)) =>
      match k
      case Identifier(id) => r := NamedValue(t, id);
      case Integer(v) => return Ok(G.Integer(v));
      case Double(d) => return Ok(G.Double(d));
      case String(v) => return Ok(G.String(v));
      case StringName(v) => return Ok(G.StringName(v));
      case Color(v) => return Ok(G.Color(G.Html(v)));
      case _ => return Err(UnexpectedToken);
  }

  /** `Tag::parse`. The source also keeps a `parsing_tag` flag that would append `.`,
      `:` and a following identifier to the tag name; every path through it ends at
      the check that the token is an identifier, so the name never grows and the flag
      is not modelled. */
  method ParseTag(t: Tokenizer) returns (r: Result<Option<G.Tag>>)
    requires t.Valid()
    modifies t
    ensures t.Valid()
    ensures Agrees(r, GrammarSpec.ParseTag(old(t.Rest())), t.Rest())
  {
    var open := t.NextToken();
    if open.Err? {
      return Err(open.error);
    } else if open.value.None? {
      return Ok(None);
    } else if open.value.value != BracketOpen {
      return Err(UnexpectedToken);
    }
    var first := t.NextToken();
    if first.Err? {
      return Err(first.error);
    } else if first.value.None? {
      return Err(UnexpectedEnd);
    } else if !first.value.value.Identifier? {
      return Err(UnexpectedToken);
    }
    var fields := ParseFields(t);
    if fields.Err? {
      return Err(fields.error);
    }
    return Ok(Some(G.Tag(first.value.value.id, fields.value, [])));
  }

  /** The loop of `Tag::parse` after the tag name: `identifier = value` items up to `]`. */
  method ParseFields(t: Tokenizer) returns (r: Result<seq<G.Field>>)
    requires t.Valid()
    modifies t
    ensures t.Valid()
    ensures Agrees(r, GrammarSpec.TagFields([], old(t.Rest())), t.Rest())
  {
    ghost var start := t.Rest();
    var fields: seq<G.Field> := [];
    while true
      invariant t.Valid()
      invariant GrammarSpec.TagFields(fields, t.Rest()) == GrammarSpec.TagFields([], start)
      decreases |t.Rest()|
    {
      var token := t.NextToken();
      if token.Err? {
        return Err(token.error);
      } else if token.value.None? {
        return Err(UnexpectedEnd);
      }
      var k := token.value.value;
      if k == BracketClose {
        break;
      } else if !k.Identifier? {
        return Err(UnexpectedToken);
      }
      var eq := Expect(t, Equal);
      if eq.Err? {
        return Err(eq.error);
      }
      var value := ParseValue(t);
      if value.Err? {
        return Err(value.error);
      }
      fields := fields + [G.Field(k.id, value.value)];
    }
    return Ok(fields);
  }

  /** `TagAssign::parse`: reads bytes up to the `=` of a `path = value` line. */
  method ParseAssign(t: Tokenizer) returns (r: Result<Option<G.TagAssign>>)
    requires t.Valid()
    modifies t
    ensures t.Valid()
    ensures Agrees(r, GrammarSpec.ParseAssign("", old(t.Rest())), t.Rest())
  {
    var what := "";
    while true
      invariant t.Valid()
      invariant GrammarSpec.ParseAssign(what, t.Rest()) == GrammarSpec.ParseAssign("", old(t.Rest()))
      decreases |t.Rest()|
    {
      ghost var s := t.Rest();
      var b := t.NextByte();
      if b.None? {
        return Ok(None);
      }
      var character := b.value;
      assert s[0] == character && s[1..] == t.Rest();
      if character == ';' as byte {
        var ended := t.SkipCommentBytes();
        if !ended {
          return Ok(None);
        }
      } else if character == '[' as byte && what == [] {
        t.SaveByte(character);
        return Ok(None);
      } else if character == '"' as byte {
        t.SaveByte('"' as byte);
        var token := t.NextToken();
        if token.Err? {
          return Err(token.error);
        } else if token.value.None? || !token.value.value.String? {
          return Err(ExpectedString);
        }
        what := token.value.value.s;
      } else if character == '=' as byte {
        var value := ParseValue(t);
        if value.Err? {
          return Err(value.error);
        }
        return Ok(Some(G.TagAssign(what, value.value)));
      } else if character > 32 {
        what := what + [Latin1(character)];
      }
    }
  }

  /** `parse_file`, on the file's bytes. */
  method ParseFile(input: seq<byte>) returns (r: Result<G.GodotFile>)
    ensures r == GrammarSpec.ParseFile(input)
  {
    var t := new Tokenizer(input);
    var h := ParseTag(t);
    if h.Err? {
      return Err(h.error);
    } else if h.value.None? {
      return Err(EmptyFile);
    }
    var header := h.value.value;
    if !GrammarSpec.FormatAccepted(header) {
      return Err(UnsupportedFormat);
    }
    ghost var start := t.Rest();
    var tags: seq<G.Tag> := [];
    while true
      invariant t.Valid()
      invariant GrammarSpec.TagsLoop(tags, t.Rest()) == GrammarSpec.TagsLoop([], start)
      decreases |t.Rest()|
    {
      ghost var s := t.Rest();
      var next := ParseTag(t);
      if next.Err? {
        return Err(next.error);
      } else if next.value.None? {
        break;
      }
      var tag := next.value.value;
      ghost var body := t.Rest();
      var assigns: seq<G.TagAssign> := [];
      while true
        invariant t.Valid() && |t.Rest()| <= |body|
        invariant GrammarSpec.AssignsLoop(assigns, t.Rest()) == GrammarSpec.AssignsLoop([], body)
        decreases |t.Rest()|
      {
        var assign := ParseAssign(t);
        if assign.Err? {
          return Err(assign.error);
        } else if assign.value.None? {
          break;
        }
        assigns := assigns + [assign.value.value];
      }
      tags := tags + [tag.(assigns := assigns)];
    }
    return Ok(G.GodotFile(header, tags));
  }
}
