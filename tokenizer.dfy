/** The byte tokenizer: a cursor over the file's bytes with a one-byte pushback slot. */
module Lexer {
  import opened Common
  import opened Decimal
  import opened FloatText
  import opened LexerSpec

  /** The bytes an `Option<u8>` holds: none or one. */
  function Held(b: Option<byte>): seq<byte> {
    if b.Some? then [b.value] else []
  }

  /** One turn of the scanner loop on a non-empty stream. */
  lemma ScanNumberUnfold(st: NumState, c: byte, t: seq<byte>)
    requires st.reading != Done
    ensures var next := Step(st, c);
      ScanNumber(st, [c] + t) ==
        if next.reading == Done then Scanned(st.num, st.isFloat, [c] + t)
        else ScanNumber(next.(num := next.num + [c]), t)
  {
    assert ([c] + t)[0] == c && ([c] + t)[1..] == t;
  }

  class Tokenizer {
    /** The whole byte source (the file's `Bytes` iterator). */
    const input: seq<byte>
    /** How many bytes of `input` the iterator has handed out. */
    var pos: nat
    /** The pushback slot. */
    var saved: Option<byte>

    ghost predicate Valid()
      reads this
    {
      pos <= |input|
    }

    /** The bytes still to be read: the pushed-back byte, if any, then the unread input. */
    ghost function Rest(): seq<byte>
      reads this
      requires Valid()
    {
      Held(saved) + input[pos..]
    }

    constructor (bytes: seq<byte>)
      ensures Valid() && input == bytes && saved.None? && Rest() == bytes
    {
      input := bytes;
      pos := 0;
      saved := None;
    }

    /** `next_byte`: takes the pushed-back byte if there is one, else the next input byte. */
    method NextByte() returns (b: Option<byte>)
      requires Valid()
      modifies this
      ensures Valid() && saved.None?
      ensures b.None? <==> old(Rest()) == []
      ensures old(Rest()) == Held(b) + Rest()
    {
      if saved.Some? {
        b := saved;
        saved := None;
      } else if pos < |input| {
        b := Some(input[pos]);
        pos := pos + 1;
      } else {
        b := None;
      }
    }

    /** `save_byte`: pushes one byte back; the slot must be empty. */
    method SaveByte(b: byte)
      requires Valid() && saved.None?
      modifies this`saved
      ensures Valid() && Rest() == [b] + old(Rest())
    {
      saved := Some(b);
    }

    /** The comment loop: reads through the next newline. Returns `false` when the
        file ends first. */
    method SkipCommentBytes() returns (ended: bool)
      requires Valid()
      modifies this
      ensures Valid() && saved.None?
      ensures ended ==> SkipComment(old(Rest())) == Some(Rest())
      ensures !ended ==> SkipComment(old(Rest())) == None && Rest() == []
    {
      while true
        invariant Valid()
        invariant SkipComment(Rest()) == SkipComment(old(Rest()))
        decreases |Rest()|
      {
        var b := NextByte();
        if b.None? {
          return false;
        }
        if b.value == '\n' as byte {
          return true;
        }
      }
    }

    /** The `#` branch of `next_token`, after the `#`. */
    method ReadColor() returns (r: Result<Option<Token>>)
      requires Valid() && saved.None?
      modifies this
      ensures Valid()
      ensures Agrees(r, LexColor("#", old(Rest())), Rest())
      ensures r.Ok? && r.value.Some? && Rest() != [] ==> saved == Some(Rest()[0])
    {
      var colorStr := "#";
      while true
        invariant Valid() && saved.None?
        invariant LexColor(colorStr, Rest()) == LexColor("#", old(Rest()))
        decreases |Rest()|
      {
        var b := NextByte();
        if b.None? {
          return Ok(None);
        }
        var c := b.value;
        if IsHexDigit(c) {
          colorStr := colorStr + [Latin1(c)];
        } else {
          SaveByte(c);
          break;
        }
      }
      return Ok(Some(Color(colorStr)));
    }

    /** The body of a string literal, after its opening `"`. */
    method ReadString(isStringName: bool) returns (r: Result<Option<Token>>)
      requires Valid()
      modifies this
      ensures Valid()
      ensures Agrees(r, LexString(isStringName, "", old(Rest())), Rest())
    {
      var text := "";
      while true
        invariant Valid()
        invariant LexString(isStringName, text, Rest()) == LexString(isStringName, "", old(Rest()))
        decreases |Rest()|
      {
        var b := NextByte();
        if b.None? {
          return Err(UnterminatedString);
        }
        var c := b.value;
        if c == '"' as byte {
          break;
        } else if c != '\n' as byte {
          text := text + [Latin1(c)];
        }
      }
      if isStringName {
        return Ok(Some(StringName(text)));
      } else {
        return Ok(Some(Token.String(text)));
      }
    }

    /** The scanner loop of the number branch, from state `start` with `first` the
        byte it holds in `next`. Each turn makes the transition `Step` on the held
        byte; the byte that ends the literal goes back into the pushback slot. */
    method ScanLiteral(start: NumState, first: Option<byte>) returns (num: seq<byte>, isFloat: bool)
      requires Valid() && saved.None? && start.reading != Done
      requires first.None? ==> Rest() == []
      modifies this
      ensures Valid()
      ensures ScanNumber(start, Held(first) + old(Rest())) == Scanned(num, isFloat, Rest())
      ensures Rest() != [] ==> saved == Some(Rest()[0])
    {
      ghost var target := ScanNumber(start, Held(first) + old(Rest()));
      var st := start;
      var next := first;

      while next.Some?
        invariant Valid() && saved.None? && st.reading != Done
        invariant next.None? ==> Rest() == []
        invariant ScanNumber(st, Held(next) + Rest()) == target
        decreases |Held(next) + Rest()|
      {
        var current := next.value;
        ScanNumberUnfold(st, current, Rest());
        var after := Step(st, current);
        if after.reading == Done {
          break;
        }
        st := after.(num := after.num + [current]);
        next := NextByte();
      }

      ghost var unread := Rest();
      saved := next;
      assert Rest() == Held(next) + unread;
      num, isFloat := st.num, st.isFloat;
    }

    /** The number branch of `next_token`. `character` is the `-` or digit already read. */
    method ReadNumber(character: byte) returns (r: Result<Option<Token>>)
      requires Valid() && saved.None?
      requires character == '-' as byte || IsDigit(character)
      modifies this
      ensures Valid()
      ensures Agrees(r, LexNumber(character, old(Rest())), Rest())
      ensures r.Ok? && Rest() != [] ==> saved == Some(Rest()[0])
    {
      var num: seq<byte>, isFloat: bool;
      if character == '-' as byte {
        var next := NextByte();
        num, isFloat := ScanLiteral(StartNumber.(num := ['-' as byte]), next);
      } else {
        num, isFloat := ScanLiteral(StartNumber, Some(character));
      }

      if isFloat {
        match ParseF64(num)
        case Some(x) => return Ok(Some(Double(GodotData.Finite(x))));
        case None => return Err(BadDouble);
      } else {
        match ParseI64(num)
        case Some(n) => return Ok(Some(Integer(n)));
        case None => return Err(BadInteger);
      }
    }

    /** The identifier branch of `next_token`; `character` is the first byte. */
    method ReadIdentifier(character: byte) returns (r: Result<Option<Token>>)
      requires Valid() && saved.None?
      modifies this
      ensures Valid()
      ensures Agrees(r, LexIdentifier([Latin1(character)], old(Rest())), Rest())
      ensures Rest() != [] ==> saved == Some(Rest()[0])
    {
      var id := [Latin1(character)];
      while true
        invariant Valid() && saved.None?
        invariant LexIdentifier(id, Rest()) == LexIdentifier([Latin1(character)], old(Rest()))
        decreases |Rest()|
      {
        var b := NextByte();
        if b.None? {
          break;
        }
        var c := b.value;
        if IsIdentByte(c) {
          id := id + [Latin1(c)];
        } else {
          SaveByte(c);
          break;
        }
      }
      return Ok(Some(Identifier(id)));
    }

    /** `next_token`: the next token, `None` at end of file. */
    method NextToken() returns (r: Result<Option<Token>>)
      requires Valid()
      modifies this
      ensures Valid()
      ensures Agrees(r, Lex(old(Rest())), Rest())
    {
      while true
        invariant Valid()
        invariant Lex(Rest()) == Lex(old(Rest()))
        decreases |Rest()|
      {
        ghost var s := Rest();
        var b := NextByte();
        if b.None? {
          return Ok(None);
        }
        var character := b.value;
        assert s[0] == character && s[1..] == Rest();
        if character == '{' as byte {
          return Ok(Some(CurlyBracketOpen));
        } else if character == '}' as byte {
          return Ok(Some(CurlyBracketClose));
        } else if character == '[' as byte {
          return Ok(Some(BracketOpen));
        } else if character == ']' as byte {
          return Ok(Some(BracketClose));
        } else if character == '(' as byte {
          return Ok(Some(ParenthesisOpen));
        } else if character == ')' as byte {
          return Ok(Some(ParenthesisClose));
        } else if character == ':' as byte {
          return Ok(Some(Colon));
        } else if character == ';' as byte {
          var ended := SkipCommentBytes();
          if !ended {
            return Ok(None);
          }
        } else if character == ',' as byte {
          return Ok(Some(Comma));
        } else if character == '.' as byte {
          return Ok(Some(Period));
        } else if character == '=' as byte {
          return Ok(Some(Equal));
        } else if character == '#' as byte {
          r := ReadColor();
          return;
        } else if character == '"' as byte || character == '@' as byte || character == '&' as byte {
          var isStringName := false;
          if character == '@' as byte || character == '&' as byte {
            var quote := NextByte();
            if quote != Some('"' as byte) {
              return Err(MissingQuote);
            }
            isStringName := true;
          }
          r := ReadString(isStringName);
          return;
        } else if character == '-' as byte || IsDigit(character) {
          r := ReadNumber(character);
          return;
        } else if IsAlpha(character) || character == '_' as byte {
          r := ReadIdentifier(character);
          return;
        } else if character <= 32 {
        } else {
          return Err(UnexpectedCharacter);
        }
      }
    }
  }
}
