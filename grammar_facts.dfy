/** Properties of the `.tres` grammar: what `Tag::parse`, `TagAssign::parse`,
    `Value::parse` and `parse_file` accept and reject. */
module GrammarFacts {
  import opened Common
  import opened LexerSpec
  import G = GodotData
  import opened GrammarSpec

  // ----- Tag::parse -----

  /** A tag header is absent exactly when the stream holds no further token. */
  lemma ParseTagNone(s: seq<byte>)
    ensures (ParseTag(s).Ok? && ParseTag(s).value.item.None?) <==> Lex(s) == Ok(Lexed(None, []))
  {
  }

  /** A first token other than `[` is an error, and so is end of file after `[`. */
  lemma ParseTagRejects(s: seq<byte>)
    requires Lex(s).Ok? && Lex(s).value.item.Some?
    ensures Lex(s).value.item != Some(BracketOpen) ==> ParseTag(s) == Err(UnexpectedToken)
    ensures Lex(s).value.item == Some(BracketOpen) && Lex(Lex(s).value.rest) == Ok(Lexed(None, []))
      ==> ParseTag(s) == Err(UnexpectedEnd)
  {
  }

  /** A parsed tag's name is the identifier right after `[`, and its fields are what
      the field loop reads after it. */
  lemma ParseTagName(s: seq<byte>)
    requires ParseTag(s).Ok? && ParseTag(s).value.item.Some?
    ensures Lex(s).Ok? && Lex(s).value.item == Some(BracketOpen)
    ensures var n := Lex(Lex(s).value.rest);
      n.Ok? && n.value.item == Some(Identifier(ParseTag(s).value.item.value.name)) &&
      TagFields([], n.value.rest) == Ok(Lexed(ParseTag(s).value.item.value.fields, ParseTag(s).value.rest))
  {
  }

  /** The field loop only ever adds fields after those already read. */
  lemma {:induction false} TagFieldsExtends(fields: seq<G.Field>, s: seq<byte>)
    requires TagFields(fields, s).Ok?
    ensures fields <= TagFields(fields, s).value.item
    decreases |s|
  {
    var l := Lex(s).value;
    match l.item
    case Some(BracketClose) =>
    case Some(Identifier(id)) =>
      var e := Expect(l.rest, Equal).value;
      var v := ParseValue(e).value;
      TagFieldsExtends(fields + [G.Field(id, v.item)], v.rest);
  }

  /** Inside a tag header, end of file, a `.` or `:`, and an identifier not followed
      by `=` are all errors. */
  lemma TagFieldsRejects(fields: seq<G.Field>, s: seq<byte>)
    requires Lex(s).Ok?
    ensures Lex(s).value.item.None? ==> TagFields(fields, s) == Err(UnexpectedEnd)
    ensures Lex(s).value.item == Some(Period) || Lex(s).value.item == Some(Colon)
      ==> TagFields(fields, s) == Err(UnexpectedToken)
    ensures Lex(s).value.item.Some? && Lex(s).value.item.value.Identifier? &&
      Lex(Lex(s).value.rest).Ok? && Lex(Lex(s).value.rest).value.item != Some(Equal)
      ==> TagFields(fields, s).Err?
  {
  }

  // ----- Value::parse -----

  /** `Vector2i(...)` is a value exactly when its argument list holds two integers,
      which become its coordinates in order. */
  lemma VectorArity(s: seq<byte>)
    ensures NamedValue("Vector2i", s).Ok? <==>
      ParseArgs(IntArg, s).Ok? && |ParseArgs(IntArg, s).value.item| == 2
    ensures NamedValue("Vector2i", s).Ok? ==>
      var a := ParseArgs(IntArg, s).value.item;
      NamedValue("Vector2i", s).value.item == G.Vector2i(G.Vec2i(a[0], a[1]))
  {
  }

  /** `Color(...)` is a value exactly when its argument list holds four numbers. */
  lemma ColorArity(s: seq<byte>)
    ensures NamedValue("Color", s).Ok? <==>
      ParseArgs(DoubleArg, s).Ok? && |ParseArgs(DoubleArg, s).value.item| == 4
    ensures NamedValue("Color", s).Ok? ==>
      var a := ParseArgs(DoubleArg, s).value.item;
      NamedValue("Color", s).value.item == G.Color(G.Rgba(a[0], a[1], a[2], a[3]))
  {
  }

  /** An integer argument of a colour is widened to a float; a float argument is not
      accepted where integers are expected. */
  lemma ArgumentKinds(v: i64, d: G.F64)
    ensures DoubleArg(Integer(v)) == Some(G.Finite(v as real)) && DoubleArg(Double(d)) == Some(d)
    ensures IntArg(Integer(v)) == Some(v) && IntArg(Double(d)) == None
  {
  }

  /** An empty argument list `()` reads as no arguments, so both constructors reject it
      for its arity. */
  lemma EmptyArguments(s: seq<byte>, open: seq<byte>, rest: seq<byte>)
    requires Lex(s) == Ok(Lexed(Some(ParenthesisOpen), open))
    requires Lex(open) == Ok(Lexed(Some(ParenthesisClose), rest))
    ensures ParseArgs(IntArg, s) == Ok(Lexed([], rest))
    ensures NamedValue("Vector2i", s) == Err(WrongArity) && NamedValue("Color", s) == Err(WrongArity)
  {
    assert Expect(s, ParenthesisOpen) == Ok(open);
    assert ArgsLoop(IntArg, [], open) == ArgValue(IntArg, [], open);
    assert ArgsLoop(DoubleArg, [], open) == ArgValue(DoubleArg, [], open);
  }

  /** The argument loop only ever adds arguments after those already read. */
  lemma {:induction false} ArgsExtend<T>(arg: Token -> Option<T>, args: seq<T>, s: seq<byte>)
    requires ArgsLoop(arg, args, s).Ok?
    ensures args <= ArgsLoop(arg, args, s).value.item
    decreases |s|, if args == [] then 1 else 2
  {
    if args != [] {
      var l := Lex(s).value;
      match l.item
      case Some(ParenthesisClose) =>
      case Some(Comma) => ArgValueExtends(arg, args, l.rest);
    } else {
      ArgValueExtends(arg, args, s);
    }
  }

  lemma {:induction false} ArgValueExtends<T>(arg: Token -> Option<T>, args: seq<T>, s: seq<byte>)
    requires ArgValue(arg, args, s).Ok?
    ensures args <= ArgValue(arg, args, s).value.item
    decreases |s|, 0
  {
    var l := Lex(s).value;
    var t := l.item.value;
    match arg(t)
    case Some(v) =>
      ArgsExtend(arg, args + [v], l.rest);
    case None =>
  }

  /** `SubResource` and `ExtResource` hold the one string between their parentheses. */
  lemma ResourceReference(s: seq<byte>)
    ensures NamedValue("SubResource", s).Ok? <==> ResourceId(s).Ok?
    ensures NamedValue("ExtResource", s).Ok? <==> ResourceId(s).Ok?
    ensures ResourceId(s).Ok? ==>
      NamedValue("SubResource", s).value.item == G.SubResource(ResourceId(s).value.item) &&
      NamedValue("ExtResource", s).value.item == G.ExtResource(ResourceId(s).value.item)
  {
  }

  /** An identifier that names no value is an error. */
  lemma UnknownIdentifier(id: string, s: seq<byte>)
    requires id !in {"true", "false", "null", "nil", "inf", "neg_inf", "nan",
      "Vector2i", "Color", "SubResource", "ExtResource"}
    ensures NamedValue(id, s) == Err(UnsupportedValue)
  {
  }

  /** End of file where a value is expected is an error. */
  lemma ValueAtEnd(s: seq<byte>)
    requires Lex(s) == Ok(Lexed(None, []))
    ensures ParseValue(s) == Err(UnexpectedEnd)
  {
  }

  // ----- TagAssign::parse -----

  /** The path text of path bytes: each byte as a Latin-1 character. */
  function PathText(p: seq<byte>): (r: string)
    ensures |r| == |p|
    ensures forall i :: 0 <= i < |p| ==> r[i] as int == p[i] as int
  {
    if p == [] then "" else [Latin1(p[0])] + PathText(p[1..])
  }

  /** A byte that is appended to the path as it is read. */
  predicate PathByte(b: byte) {
    b > 32 && b != ';' as byte && b != '[' as byte && b != '"' as byte && b != '=' as byte
  }

  /** Bytes up to 32 are dropped from the path, wherever they occur. */
  lemma {:induction false} DropsControl(what: string, w: seq<byte>, t: seq<byte>)
    requires forall i :: 0 <= i < |w| ==> w[i] <= 32
    ensures ParseAssign(what, w + t) == ParseAssign(what, t)
    decreases |w|
  {
    if w != [] {
      assert (w + t)[0] == w[0] && (w + t)[1..] == w[1..] + t;
      DropsControl(what, w[1..], t);
    } else {
      assert w + t == t;
    }
  }

  /** Path bytes are appended to the path read so far, in order. */
  lemma {:induction false} PathAppends(what: string, p: seq<byte>, t: seq<byte>)
    requires forall i :: 0 <= i < |p| ==> PathByte(p[i])
    ensures ParseAssign(what, p + t) == ParseAssign(what + PathText(p), t)
    decreases |p|
  {
    if p != [] {
      assert (p + t)[0] == p[0] && (p + t)[1..] == p[1..] + t;
      PathAppends(what + [Latin1(p[0])], p[1..], t);
      assert what + [Latin1(p[0])] + PathText(p[1..]) == what + PathText(p);
    } else {
      assert p + t == t;
      assert what + PathText(p) == what;
    }
  }

  /** The result of a `path = value` line whose value parse gave `v`. */
  function Assigned(path: string, v: Result<Lexed<G.Value>>): Result<Lexed<Option<G.TagAssign>>> {
    match v
    case Ok(l) => Ok(Lexed(Some(G.TagAssign(path, l.item)), l.rest))
    case Err(e) => Err(e)
  }

  /** `=` ends the path and is followed by the value. */
  lemma AssignAtEqual(what: string, t: seq<byte>)
    ensures ParseAssign(what, ['=' as byte] + t) == Assigned(what, ParseValue(t))
  {
    var e: seq<byte> := ['=' as byte] + t;
    assert e[0] == '=' as byte && e[1..] == t;
  }

  /** A line `path = value`: the path is the text before `=`, with the spaces around it
      dropped, and the value follows the `=`. */
  lemma AssignLine(w: seq<byte>, p: seq<byte>, u: seq<byte>, t: seq<byte>)
    requires forall i :: 0 <= i < |w| ==> w[i] <= 32
    requires forall i :: 0 <= i < |u| ==> u[i] <= 32
    requires p != [] && forall i :: 0 <= i < |p| ==> PathByte(p[i])
    ensures ParseAssign("", w + p + u + ['=' as byte] + t) == Assigned(PathText(p), ParseValue(t))
  {
    var e: seq<byte> := ['=' as byte] + t;
    assert w + p + u + ['=' as byte] + t == w + (p + (u + e));
    DropsControl("", w, p + (u + e));
    PathAppends("", p, u + e);
    assert "" + PathText(p) == PathText(p);
    DropsControl(PathText(p), u, e);
    AssignAtEqual(PathText(p), t);
  }

  /** With no path read yet, a `[` (after any dropped bytes) ends the tag's assigns and
      is left in the stream for the next tag header. */
  lemma NextTagPushedBack(w: seq<byte>, t: seq<byte>)
    requires forall i :: 0 <= i < |w| ==> w[i] <= 32
    ensures ParseAssign("", w + ['[' as byte] + t) == Ok(Lexed(None, ['[' as byte] + t))
  {
    assert w + ['[' as byte] + t == w + (['[' as byte] + t);
    DropsControl("", w, ['[' as byte] + t);
  }

  /** A quoted string replaces whatever path has been read so far. */
  lemma QuotedPathReplaces(what: string, s: seq<byte>, v: string, rest: seq<byte>)
    requires s != [] && s[0] == '"' as byte
    requires Lex(s) == Ok(Lexed(Some(Token.String(v)), rest))
    ensures ParseAssign(what, s) == ParseAssign(v, rest)
  {
  }

  /** A comment's remaining stream is a suffix of the stream. */
  lemma {:induction false} SkipCommentSuffix(s: seq<byte>)
    requires SkipComment(s).Some?
    ensures SkipComment(s).value == s[|s| - |SkipComment(s).value|..]
  {
    if s[0] != '\n' as byte {
      SkipCommentSuffix(s[1..]);
      assert s[1..][|s| - 1 - |SkipComment(s).value|..] == s[|s| - |SkipComment(s).value|..];
    }
  }

  /** Without an `=` or a `"` ahead, the assigns end with nothing, whatever path has
      been read: end of file never completes a partial path. */
  lemma {:induction false} NoAssignWithoutEqual(what: string, s: seq<byte>)
    requires forall i :: 0 <= i < |s| ==> s[i] != '=' as byte && s[i] != '"' as byte
    ensures ParseAssign(what, s).Ok? && ParseAssign(what, s).value.item.None?
    decreases |s|
  {
    if s != [] {
      var c, t := s[0], s[1..];
      if c == ';' as byte {
        match SkipComment(t)
        case None =>
        case Some(after) =>
          SkipCommentSuffix(t);
          assert forall i :: 0 <= i < |after| ==> after[i] == t[|t| - |after| + i];
          NoAssignWithoutEqual(what, after);
      } else if c == '[' as byte && what == [] {
      } else if c <= 32 {
        NoAssignWithoutEqual(what, t);
      } else {
        NoAssignWithoutEqual(what + [Latin1(c)], t);
      }
    }
  }

  // ----- parse_file -----

  /** A file with no header tag is rejected. */
  lemma EmptyFileRejected(s: seq<byte>)
    requires Lex(s) == Ok(Lexed(None, []))
    ensures ParseFile(s) == Err(EmptyFile)
  {
  }

  /** A header whose first `format` field holds anything but the integer 3 is
      rejected; a header with no `format` field passes the check. */
  lemma FormatGate(s: seq<byte>, header: G.Tag, rest: seq<byte>)
    requires ParseTag(s) == Ok(Lexed(Some(header), rest))
    ensures G.FindField(header.fields, "format").None? ==> FormatAccepted(header)
    ensures G.FindField(header.fields, "format").Some? &&
      G.FindField(header.fields, "format").value.value != G.Integer(3)
      ==> ParseFile(s) == Err(UnsupportedFormat)
  {
  }

  /** A parsed file's header is the first tag of the stream and passed the format check. */
  lemma ParsedHeader(s: seq<byte>)
    requires ParseFile(s).Ok?
    ensures ParseTag(s).Ok? && ParseTag(s).value.item == Some(ParseFile(s).value.header)
    ensures FormatAccepted(ParseFile(s).value.header)
  {
  }
}
