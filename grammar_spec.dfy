/** The grammar of `.tres` files as functions over the byte stream still to be read:
    values, constructor arguments, tag headers, `path = value` lines and whole files.
    Each function returns what it parsed together with the stream left over. */
module GrammarSpec {
  import opened Common
  import opened LexerSpec
  import G = GodotData

  /** The next token must be `want`; end of file and any other token are errors. */
  function Expect(s: seq<byte>, want: Token): (r: Result<seq<byte>>)
    ensures r.Ok? ==> |r.value| < |s|
  {
    var l :- Lex(s);
    match l.item
    case None => Err(UnexpectedEnd)
    case Some(t) => if t == want then Ok(l.rest) else Err(UnexpectedToken)
  }

  /** The argument a constructor of integers accepts. */
  function IntArg(t: Token): Option<i64> {
    if t.Integer? then Some(t.i) else None
  }

  /** The argument a constructor of floats accepts: an integer widens to a float. */
  function DoubleArg(t: Token): Option<G.F64> {
    match t
    case Integer(v) => Some(G.Finite(v as real))
    case Double(d) => Some(d)
    case _ => None
  }

  /** The argument loop after `(`. Once an argument has been read, a `,` or `)` must
      come first; then an argument, or, while there are none yet, a `)`. */
  function ArgsLoop<T>(arg: Token -> Option<T>, args: seq<T>, s: seq<byte>): (r: Result<Lexed<seq<T>>>)
    ensures r.Ok? ==> |r.value.rest| < |s|
    decreases |s|, if args == [] then 1 else 2
  {
    if args != [] then
      var l :- Lex(s);
      match l.item
      case None => Err(UnexpectedEnd)
      case Some(ParenthesisClose) => Ok(Lexed(args, l.rest))
      case Some(Comma) => ArgValue(arg, args, l.rest)
      case Some(_) => Err(UnexpectedToken)
    else
      ArgValue(arg, args, s)
  }

  /** One argument, or the `)` of an empty argument list. */
  function ArgValue<T>(arg: Token -> Option<T>, args: seq<T>, s: seq<byte>): (r: Result<Lexed<seq<T>>>)
    ensures r.Ok? ==> |r.value.rest| < |s|
    decreases |s|, 0
  {
    var l :- Lex(s);
    match l.item
    case None => Err(UnexpectedEnd)
    case Some(t) =>
      match arg(t)
      case Some(v) => ArgsLoop(arg, args + [v], l.rest)
      case None =>
        if t == ParenthesisClose && args == [] then Ok(Lexed(args, l.rest))
        else Err(UnexpectedToken)
  }

  /** `parse_int_constructor` / `parse_double_constructor`: `(`, then the arguments. */
  function ParseArgs<T>(arg: Token -> Option<T>, s: seq<byte>): (r: Result<Lexed<seq<T>>>)
    ensures r.Ok? ==> |r.value.rest| < |s|
  {
    var open :- Expect(s, ParenthesisOpen);
    ArgsLoop(arg, [], open)
  }

  /** `( "id" )` after `SubResource` or `ExtResource`. */
  function ResourceId(s: seq<byte>): (r: Result<Lexed<string>>)
    ensures r.Ok? ==> |r.value.rest| < |s|
  {
    var open :- Expect(s, ParenthesisOpen);
    var l :- Lex(open);
    match l.item
    case None => Err(UnexpectedEnd)
    case Some(String(v)) =>
      var close :- Expect(l.rest, ParenthesisClose);
      Ok(Lexed(v, close))
    case Some(_) => Err(UnexpectedToken)
  }

  /** The value an identifier token `id` starts. */
  function NamedValue(id: string, s: seq<byte>): (r: Result<Lexed<G.Value>>)
    ensures r.Ok? ==> |r.value.rest| <= |s|
  {
    if id == "true" then Ok(Lexed(G.Bool(true), s))
    else if id == "false" then Ok(Lexed(G.Bool(false), s))
    else if id == "null" || id == "nil" then Ok(Lexed(G.Null, s))
    else if id == "inf" then Ok(Lexed(G.Double(G.Infinity), s))
    else if id == "neg_inf" then Ok(Lexed(G.Double(G.NegInfinity), s))
    else if id == "nan" then Ok(Lexed(G.Double(G.NaN), s))
    else if id == "Vector2i" then
      var a :- ParseArgs(IntArg, s);
      if |a.item| == 2 then Ok(Lexed(G.Vector2i(G.Vec2i(a.item[0], a.item[1])), a.rest))
      else Err(WrongArity)
    else if id == "Color" then
      var a :- ParseArgs(DoubleArg, s);
      if |a.item| == 4 then Ok(Lexed(G.Color(G.Rgba(a.item[0], a.item[1], a.item[2], a.item[3])), a.rest))
      else Err(WrongArity)
    else if id == "SubResource" then
      var r :- ResourceId(s);
      Ok(Lexed(G.SubResource(r.item), r.rest))
    else if id == "ExtResource" then
      var r :- ResourceId(s);
      Ok(Lexed(G.ExtResource(r.item), r.rest))
    else Err(UnsupportedValue)
  }

  /** `Value::parse`. */
  function ParseValue(s: seq<byte>): (r: Result<Lexed<G.Value>>)
    ensures r.Ok? ==> |r.value.rest| < |s|
  {
    var l :- Lex(s);
    match l.item
    case None => Err(UnexpectedEnd)
    case Some(Identifier(id)) => NamedValue(id, l.rest)
    case Some(Integer(v)) => Ok(Lexed(G.Integer(v), l.rest))
    case Some(Double(d)) => Ok(Lexed(G.Double(d), l.rest))
    case Some(String(v)) => Ok(Lexed(G.String(v), l.rest))
    case Some(StringName(v)) => Ok(Lexed(G.StringName(v), l.rest))
    case Some(Color(v)) => Ok(Lexed(G.Color(G.Html(v)), l.rest))
    case Some(_) => Err(UnexpectedToken)
  }

  /** The items of a tag header after its name, up to `]`: each must be
      `identifier = value`. */
  function TagFields(fields: seq<G.Field>, s: seq<byte>): (r: Result<Lexed<seq<G.Field>>>)
    ensures r.Ok? ==> |r.value.rest| < |s|
    decreases |s|
  {
    var l :- Lex(s);
    match l.item
    case None => Err(UnexpectedEnd)
    case Some(BracketClose) => Ok(Lexed(fields, l.rest))
    case Some(Identifier(id)) =>
      var e :- Expect(l.rest, Equal);
      var v :- ParseValue(e);
      TagFields(fields + [G.Field(id, v.item)], v.rest)
    case Some(_) => Err(UnexpectedToken)
  }

  /** `Tag::parse`: `[`, the tag name, the fields, `]`. `None` at end of file. */
  function ParseTag(s: seq<byte>): (r: Result<Lexed<Option<G.Tag>>>)
    ensures r.Ok? && r.value.item.None? ==> r.value.rest == []
    ensures r.Ok? && r.value.item.Some? ==> |r.value.rest| < |s| && r.value.item.value.assigns == []
  {
    var l :- Lex(s);
    match l.item
    case None => Ok(Lexed(None, l.rest))
    case Some(BracketOpen) =>
      var n :- Lex(l.rest);
      (match n.item
       case None => Err(UnexpectedEnd)
       case Some(Identifier(name)) =>
         var b :- TagFields([], n.rest);
         Ok(Lexed(Some(G.Tag(name, b.item, [])), b.rest))
       case Some(_) => Err(UnexpectedToken))
    case Some(_) => Err(UnexpectedToken)
  }

  /** `TagAssign::parse`, with `what` the path read so far. It reads bytes: `;` starts
      a comment; `[` with no path yet ends the tag's assigns and stays in the stream; a
      `"` is pushed back and the string token it opens replaces the path; `=` is
      followed by the value; other bytes up to 32 are dropped and the rest appended.
      End of file ends the assigns, whatever path has been read. */
  function ParseAssign(what: string, s: seq<byte>): (r: Result<Lexed<Option<G.TagAssign>>>)
    ensures r.Ok? ==> |r.value.rest| <= |s|
    ensures r.Ok? && r.value.item.Some? ==> |r.value.rest| < |s|
    decreases |s|
  {
    if s == [] then Ok(Lexed(None, []))
    else
      var c, t := s[0], s[1..];
      if c == ';' as byte then
        (match SkipComment(t)
         case None => Ok(Lexed(None, []))
         case Some(after) => ParseAssign(what, after))
      else if c == '[' as byte && what == [] then Ok(Lexed(None, s))
      else if c == '"' as byte then
        var l :- Lex(s);
        (match l.item
         case Some(String(v)) => ParseAssign(v, l.rest)
         case _ => Err(ExpectedString))
      else if c == '=' as byte then
        var v :- ParseValue(t);
        Ok(Lexed(Some(G.TagAssign(what, v.item)), v.rest))
      else if c <= 32 then ParseAssign(what, t)
      else ParseAssign(what + [Latin1(c)], t)
  }

  /** The inner loop of `parse_file`: the assigns after a tag header. */
  function AssignsLoop(assigns: seq<G.TagAssign>, s: seq<byte>): (r: Result<Lexed<seq<G.TagAssign>>>)
    ensures r.Ok? ==> |r.value.rest| <= |s|
    decreases |s|
  {
    var a :- ParseAssign("", s);
    match a.item
    case None => Ok(Lexed(assigns, a.rest))
    case Some(x) => AssignsLoop(assigns + [x], a.rest)
  }

  /** The outer loop of `parse_file`: tags, each with its assigns, to end of file. */
  function TagsLoop(tags: seq<G.Tag>, s: seq<byte>): (r: Result<seq<G.Tag>>)
    decreases |s|
  {
    var t :- ParseTag(s);
    match t.item
    case None => Ok(tags)
    case Some(tag) =>
      var a :- AssignsLoop(tag.assigns, t.rest);
      TagsLoop(tags + [tag.(assigns := a.item)], a.rest)
  }

  /** The only format version the reader accepts. */
  const FormatVersion: i64 := 3

  /** `parse_file`'s check of the header: a first `format` field, when there is one,
      must be the integer 3. */
  predicate FormatAccepted(header: G.Tag) {
    match G.FindField(header.fields, "format")
    case None => true
    case Some(f) => f.value == G.Integer(FormatVersion)
  }

  /** `parse_file`: a header tag (whose assigns are not read), the format check, then
      the tags with their assigns. */
  function ParseFile(s: seq<byte>): (r: Result<G.GodotFile>)
  {
    var h :- ParseTag(s);
    match h.item
    case None => Err(EmptyFile)
    case Some(header) =>
      if !FormatAccepted(header) then Err(UnsupportedFormat)
      else
        var tags :- TagsLoop([], h.rest);
        Ok(G.GodotFile(header, tags))
  }
}
