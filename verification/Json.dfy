/** JSON values as `serde_json` represents them with insertion-ordered objects. */
module Json {
  import opened Support
  import opened Text

  datatype Number = Integer(value: int) | Fraction(literal: string)

  datatype Value =
    | Null
    | Bool(flag: bool)
    | Num(number: Number)
    | Str(text: string)
    | Array(items: seq<Value>)
    | Object(fields: seq<Field>)

  datatype Field = Field(key: string, value: Value)

  /** `value.get(key)`: absent for anything but an object. */
  function Get(v: Value, key: string): Option<Value> {
    if v.Object? then Lookup(v.fields, key) else None
  }

  function Lookup(fields: seq<Field>, key: string): (r: Option<Value>)
    ensures r.Some? ==> exists i :: 0 <= i < |fields| && fields[i] == Field(key, r.value)
    ensures r.None? ==> forall i :: 0 <= i < |fields| ==> fields[i].key != key
  {
    if fields == [] then None
    else if fields[0].key == key then
      assert fields[0] == Field(key, fields[0].value);
      Some(fields[0].value)
    else
      var rest := Lookup(fields[1..], key);
      assert forall i :: 1 <= i < |fields| ==> fields[i] == fields[1..][i - 1];
      rest
  }

  /** `value.pointer(path)`: reference tokens separated by `/`, with `~1` and `~0` escapes. */
  function Pointer(v: Value, path: string): (r: Option<Value>)
    ensures path != "" && path[0] != '/' ==> r == None
  {
    if path == "" then Some(v)
    else if path[0] != '/' then None
    else Descend(v, Tokens(path[1..]))
  }

  function Descend(v: Value, tokens: seq<string>): Option<Value>
    decreases |tokens|
  {
    if tokens == [] then Some(v)
    else
      var token := Unescape(Unescape(tokens[0], '1', '/'), '0', '~');
      match v
      case Object(fields) =>
        (match Lookup(fields, token)
         case Some(inner) => Descend(inner, tokens[1..])
         case None => None)
      case Array(items) =>
        if IsIndex(token) && ReadDecimal(token) < |items|
        then Descend(items[ReadDecimal(token)], tokens[1..])
        else None
      case _ => None
  }

  /** Array indices carry no sign and no leading zero. */
  predicate IsIndex(token: string) {
    && token != ""
    && (token[0] == '0' ==> |token| == 1)
    && forall i :: 0 <= i < |token| ==> '0' <= token[i] <= '9'
  }

  /** Replaces every `~` followed by `code` by `plain`, left to right. */
  function Unescape(s: string, code: char, plain: char): string {
    if s == "" then ""
    else if |s| >= 2 && s[0] == '~' && s[1] == code then [plain] + Unescape(s[2..], code, plain)
    else [s[0]] + Unescape(s[1..], code, plain)
  }

  function Tokens(s: string): (r: seq<string>)
    ensures |r| > 0
  {
    if s == "" then [""]
    else
      var rest := Tokens(s[1..]);
      if s[0] == '/' then [""] + rest else [[s[0]] + rest[0]] + rest[1..]
  }

  // ----- What pointers mean -----

  /** A reference token as RFC 6901, section 4 writes it: `~` as `~0`, `/` as `~1`. */
  ghost function Escape(token: string): string {
    if token == "" then ""
    else (if token[0] == '~' then "~0" else if token[0] == '/' then "~1" else [token[0]]) + Escape(token[1..])
  }

  ghost function EscapeTilde(token: string): string {
    if token == "" then ""
    else (if token[0] == '~' then "~0" else [token[0]]) + EscapeTilde(token[1..])
  }

  /** The pointer text that names a list of keys and indices. */
  ghost function Render(tokens: seq<string>): string {
    if tokens == [] then "" else "/" + Escape(tokens[0]) + Render(tokens[1..])
  }

  /** Following keys into objects and decimal indices into arrays, one at a time. */
  ghost function Follow(v: Value, tokens: seq<string>): Option<Value>
    decreases |tokens|
  {
    if tokens == [] then Some(v)
    else if v.Object? then
      match Lookup(v.fields, tokens[0])
      case Some(inner) => Follow(inner, tokens[1..])
      case None => None
    else if v.Array? && exists i :: 0 <= i < |v.items| && Decimal(i) == tokens[0] then
      var i :| 0 <= i < |v.items| && Decimal(i) == tokens[0];
      Follow(v.items[i], tokens[1..])
    else None
  }

  lemma {:induction false} UnescapeSlash(token: string)
    ensures Unescape(Escape(token), '1', '/') == EscapeTilde(token)
  {
    if token != "" {
      var rest := Escape(token[1..]);
      UnescapeSlash(token[1..]);
      if token[0] == '~' {
        assert Escape(token)[1..] == "0" + rest;
        assert ("0" + rest)[1..] == rest;
      } else if token[0] == '/' {
        assert Escape(token)[2..] == rest;
      } else {
        assert Escape(token)[1..] == rest;
      }
    }
  }

  lemma {:induction false} UnescapeTilde(token: string)
    ensures Unescape(EscapeTilde(token), '0', '~') == token
  {
    if token != "" {
      UnescapeTilde(token[1..]);
      var rest := EscapeTilde(token[1..]);
      if token[0] == '~' {
        assert EscapeTilde(token)[2..] == rest;
      } else {
        assert EscapeTilde(token)[1..] == rest;
      }
      assert token == [token[0]] + token[1..];
    }
  }

  lemma {:induction false} EscapeHidesSlashes(token: string)
    ensures '/' !in Escape(token)
  {
    if token != "" {
      EscapeHidesSlashes(token[1..]);
    }
  }

  lemma {:induction false} TokensOfSegment(segment: string, rest: string)
    requires '/' !in segment
    ensures Tokens(segment) == [segment]
    ensures Tokens(segment + "/" + rest) == [segment] + Tokens(rest)
  {
    var s := segment + "/" + rest;
    if segment == "" {
      assert s[1..] == rest;
    } else {
      TokensOfSegment(segment[1..], rest);
      assert s[1..] == segment[1..] + "/" + rest;
      assert segment == [segment[0]] + segment[1..];
    }
  }

  ghost function Escaped(tokens: seq<string>): seq<string> {
    if tokens == [] then [] else [Escape(tokens[0])] + Escaped(tokens[1..])
  }

  lemma {:induction false} TokensOfRendered(tokens: seq<string>)
    requires tokens != []
    ensures Tokens(Render(tokens)[1..]) == Escaped(tokens)
    decreases |tokens|
  {
    var first, rest := Escape(tokens[0]), tokens[1..];
    EscapeHidesSlashes(tokens[0]);
    if rest == [] {
      assert Render(tokens)[1..] == first;
      TokensOfSegment(first, "");
    } else {
      var behind := Render(rest)[1..];
      TokensOfRendered(rest);
      assert Render(rest) == "/" + behind;
      assert Render(tokens)[1..] == first + "/" + behind;
      TokensOfSegment(first, behind);
    }
  }

  lemma {:induction false} DescendFollows(v: Value, tokens: seq<string>)
    ensures Descend(v, Escaped(tokens)) == Follow(v, tokens)
    decreases |tokens|
  {
    if tokens != [] {
      var token := tokens[0];
      UnescapeSlash(token);
      UnescapeTilde(token);
      assert Escaped(tokens)[0] == Escape(token) && Escaped(tokens)[1..] == Escaped(tokens[1..]);
      match v {
        case Object(fields) =>
          if Lookup(fields, token).Some? {
            DescendFollows(Lookup(fields, token).value, tokens[1..]);
          }
        case Array(items) =>
          if IsIndex(token) && ReadDecimal(token) < |items| {
            DecimalOfIndex(token);
          }
          forall i | 0 <= i < |items| && Decimal(i) == token
            ensures IsIndex(token) && ReadDecimal(token) == i
            ensures Descend(items[i], Escaped(tokens[1..])) == Follow(items[i], tokens[1..])
          {
            DecimalIsIndex(i);
            ReadDecimalOfDecimal(i);
            DescendFollows(items[i], tokens[1..]);
          }
        case _ =>
      }
    }
  }

  lemma {:induction false} DecimalIsIndex(n: nat)
    ensures IsIndex(Decimal(n)) && (n > 0 ==> Decimal(n)[0] != '0')
  {
    if n >= 10 {
      DecimalIsIndex(n / 10);
    }
  }

  lemma {:induction false} DecimalOfIndex(token: string)
    requires IsIndex(token)
    ensures Decimal(ReadDecimal(token)) == token
    ensures token[0] != '0' ==> ReadDecimal(token) > 0
    decreases |token|
  {
    var n := |token| - 1;
    if n > 0 {
      var front := token[..n];
      DecimalOfIndex(front);
      assert token == front + [token[n]];
      assert ReadDecimal(token) == ReadDecimal(front) * 10 + DigitValue(token[n]);
    } else {
      assert token[..0] == [];
      assert ReadDecimal(token[..0]) == 0;
      assert token == [token[0]];
    }
  }

  /** A pointer leads where its keys and indices lead, whatever characters the keys contain, and nowhere else. */
  lemma PointerFollowsPath(v: Value, tokens: seq<string>)
    ensures Pointer(v, Render(tokens)) == Follow(v, tokens)
  {
    if tokens != [] {
      assert Render(tokens)[0] == '/';
      TokensOfRendered(tokens);
      DescendFollows(v, tokens);
    }
  }
}
