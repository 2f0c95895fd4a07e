/** The JSON reader and writer as the objects they are: an index moving over a text, a growing result. */
module JsonStreams {
  import opened Basics
  import opened Json

  /** A value, an exception, or text that is not modelled. */
  datatype Result<+T> = Returned(value: T) | Raised | Outside

  function Seen<T>(o: Outcome<T>): Result<T> {
    if o.Got? then Returned(o.value) else if o.Failed? then Raised else Outside
  }

  class Reader {
    const text: string
    /** The index of the last character taken. */
    var index: int

    constructor (text: string)
      ensures this.text == text && index == -1
    {
      this.text := text;
      index := -1;
    }

    ghost predicate Valid()
      reads this`index
    {
      -1 <= index < |text|
    }

    function Peek(): Option<char>
      reads this`index
      requires Valid()
    {
      if index + 1 < |text| then Some(text[index + 1]) else None
    }

    /** The next character, or the end of the text, which raises. */
    method Next() returns (c: Option<char>)
      requires Valid()
      modifies this`index
      ensures c == old(Peek())
      ensures c.Some? ==> Valid() && index == old(index) + 1
    {
      c := Peek();
      index := index + 1;
    }

    /** Skips whitespace; tells whether a comment starts here. */
    method EatWhitespace() returns (comment: bool)
      requires Valid()
      modifies this`index
      ensures Valid() && index >= old(index) && index + 1 == SkipSpace(text, old(index) + 1)
      ensures comment <==> Peek() == Some('/')
    {
      var p := Peek();
      while p.Some? && IsSpace(p.value)
        invariant Valid() && p == Peek() && index >= old(index)
        invariant SkipSpace(text, index + 1) == SkipSpace(text, old(index) + 1)
        decreases |text| - index
      {
        var c := Next();
        p := Peek();
      }
      comment := p == Some('/');
    }

    /** The chain of `_assertNext` calls of a literal. */
    method ReadLiteral(word: string, v: Value) returns (r: Result<Value>)
      requires Valid() && word != ""
      modifies this`index
      ensures r == Seen(ReadWord(text, old(index) + 1, word, v))
      ensures r.Returned? ==> Valid() && index + 1 == ReadWord(text, old(index) + 1, word, v).next
    {
      ghost var i := index + 1;
      for k := 0 to |word|
        invariant Valid() && index + 1 == i + k && At(text, i, word[..k])
      {
        var c := Next();
        if c != Some(word[k]) {
          NthChar(text, i, word, k);
          return Raised;
        }
        assert text[i..i + k + 1] == text[i..i + k] + [text[i + k]];
        assert word[..k + 1] == word[..k] + [word[k]];
      }
      assert word[..|word|] == word;
      return Returned(v);
    }

    /** `_readNumber`, up to the first character of a floating-point number. */
    method TakeNumber() returns (r: Result<Value>)
      requires Valid() && Peek().Some? && (Peek().value == '-' || IsDigit(Peek().value))
      modifies this`index
      ensures var o := ReadNumber(text, old(index) + 1);
              r == Seen(o) && (r.Returned? ==> Valid() && index + 1 == o.next)
    {
      ghost var i := index + 1;
      var c := Next();
      var result := [c.value];
      var peek := Peek();
      while peek.Some? && IsDigit(peek.value)
        invariant Valid() && peek == Peek() && i <= index
        invariant result == text[i..index + 1]
        invariant NumberEnd(text, index + 1) == NumberEnd(text, i + 1)
        decreases |text| - index
      {
        var d := Next();
        assert text[i..index + 1] == text[i..index] + [text[index]];
        result := result + [d.value];
        peek := Peek();
      }
      NumberEndDigits(text, i + 1);
      if peek.Some? && InNumber(peek.value) {
        return Outside;
      }
      var n := ToInt(result);
      r := if n.Got? then Returned(Num(n.value)) else Raised;
    }

    /** `_readString`. */
    method TakeString() returns (r: Result<string>)
      requires Valid() && Peek() == Some('\"')
      modifies this`index
      ensures var o := ReadString(text, old(index) + 2, "");
              r == Seen(o) && (r.Returned? ==> Valid() && index + 1 == o.next)
    {
      var quote := Next();
      var result := "";
      ghost var all := ReadString(text, index + 1, "");
      while true
        invariant Valid() && all == ReadString(text, index + 1, result)
        decreases |text| - index
      {
        var ch := Next();
        if ch.None? {
          return Raised;
        }
        if ch.value == '\"' {
          index := index - 1;
          break;
        }
        if ch.value == '\\' {
          ch := Next();
          if ch.None? {
            return Raised;
          }
          if ch.value in "brnft" {
            ch := Some(Unescape(ch.value));
          } else if ch.value == 'u' {
            return Outside;
          } else if ch.value !in "\"/\\" {
            return Raised;
          }
        }
        result := result + [ch.value];
      }
      quote := Next();
      return Returned(result);
    }

    /** `_read`. */
    method Read() returns (r: Result<Value>)
      requires Valid()
      modifies this`index
      ensures var o := ReadValue(text, old(index) + 1);
              r == Seen(o) && (r.Returned? ==> Valid() && index + 1 == o.next)
      decreases |text| - index, 2
    {
      hide ReadString, ReadNumber, ReadArray, ReadObject, SkipSpace, ReadWord;
      var comment := EatWhitespace();
      var peek := Peek();
      if peek.None? {
        return Raised;
      }
      if peek.value == '{' {
        r := TakeObject();
      } else if peek.value == '[' {
        r := TakeArray();
      } else if peek.value == '\"' {
        var s := TakeString();
        r := if s.Returned? then Returned(Str(s.value)) else if s.Raised? then Raised else Outside;
      } else if peek.value == '-' || IsDigit(peek.value) {
        r := TakeNumber();
      } else if peek.value == 't' {
        r := ReadLiteral("true", Bool(true));
      } else if peek.value == 'f' {
        r := ReadLiteral("false", Bool(false));
      } else if peek.value == 'n' {
        r := ReadLiteral("null", Null);
      } else if peek.value == '/' {
        r := Outside;
      } else {
        r := Raised;
      }
    }

    /** After an item: whether the list or dictionary is done, its bracket still ahead, or a comma was taken. */
    method TakeSeparator(close: char) returns (r: Result<bool>)
      requires Valid() && close != '/'
      modifies this`index
      ensures var o := ReadSeparator(text, old(index) + 1, close);
              && r == Seen(o)
              && (r.Returned? ==> Valid() && old(index) <= index && index + (if r.value then 2 else 1) == o.next)
              && (r == Returned(true) ==> Peek() == Some(close))
    {
      var comment := EatWhitespace();
      if comment {
        return Outside;
      }
      if Peek() == Some(close) {
        return Returned(true);
      }
      var ch := Next();
      r := if ch == Some(',') then Returned(false) else Raised;
    }

    /** `_readArray`. */
    method TakeArray() returns (r: Result<Value>)
      requires Valid() && Peek() == Some('[')
      modifies this`index
      ensures var o := ReadArray(text, old(index) + 1);
              r == Seen(o) && (r.Returned? ==> Valid() && index + 1 == o.next)
      decreases |text| - index, 1
    {
      hide ReadValue, ReadSeparator;
      var result: seq<Value> := [];
      ghost var all := ReadArray(text, index + 1);
      var bracket := Next();
      var done := Peek() == Some(']');
      while !done
        invariant Valid() && index > old(index)
        invariant done ==> Peek() == Some(']') && all == Got(Arr(result), index + 2)
        invariant !done ==> all == ReadItems(text, index + 1, result)
        decreases |text| - index
      {
        var item := Read();
        if !item.Returned? {
          return item;
        }
        var sep := TakeSeparator(']');
        if !sep.Returned? {
          return if sep.Raised? then Raised else Outside;
        }
        result := result + [item.value];
        done := sep.value;
      }
      bracket := Next();
      r := Returned(Arr(result));
    }

    /** `_readObject`. */
    method TakeObject() returns (r: Result<Value>)
      requires Valid() && Peek() == Some('{')
      modifies this`index
      ensures var o := ReadObject(text, old(index) + 1);
              r == Seen(o) && (r.Returned? ==> Valid() && index + 1 == o.next)
      decreases |text| - index, 1
    {
      hide ReadValue, ReadSeparator, ReadColon;
      var result: map<string, Value> := map[];
      ghost var all := ReadObject(text, index + 1);
      var bracket := Next();
      var done := Peek() == Some('}');
      while !done
        invariant Valid() && index > old(index)
        invariant done ==> Peek() == Some('}') && all == Got(Obj(result), index + 2)
        invariant !done ==> all == ReadMembers(text, index + 1, result)
        decreases |text| - index
      {
        var key := Read();
        if !key.Returned? {
          return key;
        }
        if !key.value.Str? {
          return Raised;
        }
        var colon := TakeColon();
        if !colon.Returned? {
          return if colon.Raised? then Raised else Outside;
        }
        var item := Read();
        if !item.Returned? {
          return item;
        }
        var sep := TakeSeparator('}');
        if !sep.Returned? {
          return if sep.Raised? then Raised else Outside;
        }
        result := result[key.value.s := item.value];
        done := sep.value;
      }
      bracket := Next();
      r := Returned(Obj(result));
    }

    method TakeColon() returns (r: Result<bool>)
      requires Valid()
      modifies this`index
      ensures var o := ReadColon(text, old(index) + 1);
              r == Seen(o) && (r.Returned? ==> Valid() && index + 1 == o.next)
    {
      var comment := EatWhitespace();
      if comment {
        return Outside;
      }
      var ch := Next();
      r := if ch == Some(':') then Returned(true) else Raised;
    }
  }

  /** `str.replace` for a single character. */
  method ReplaceAll(s: string, c: char, sub: string) returns (t: string)
    ensures t == Replace(s, c, sub)
  {
    t := "";
    for k := 0 to |s|
      invariant t == Replace(s[..k], c, sub)
    {
      assert s[..k + 1] == s[..k] + [s[k]];
      ReplaceConcat(s[..k], [s[k]], c, sub);
      ReplaceChar(s[k], c, sub);
      t := t + if s[k] == c then sub else [s[k]];
    }
    assert s[..|s|] == s;
  }

  /** The replace passes, which come to one escape per character. */
  method EscapeString(s: string, slash: bool) returns (obj: string)
    ensures obj == Escape(s, slash)
  {
    hide Replace, Escape;
    obj := ReplaceAll(s, '\\', "\\\\");
    if slash {
      obj := ReplaceAll(obj, '/', "\\/");
    }
    obj := ReplaceAll(obj, '\"', "\\\"");
    obj := ReplaceAll(obj, '\U{8}', "\\b");
    obj := ReplaceAll(obj, '\U{c}', "\\f");
    obj := ReplaceAll(obj, '\n', "\\n");
    obj := ReplaceAll(obj, '\r', "\\r");
    obj := ReplaceAll(obj, '\t', "\\t");
    PassesAreOneEscape(s, slash);
  }

  class Writer {
    const slash: bool
    var results: string

    constructor (slash: bool)
      ensures this.slash == slash && results == ""
    {
      this.slash := slash;
      results := "";
    }

    method Append(s: string)
      modifies this`results
      ensures results == old(results) + s
    {
      results := results + s;
    }

    method WriteString(s: string)
      modifies this`results
      ensures results == old(results) + Quoted(s, slash)
    {
      hide Escape;
      Append("\"");
      var obj := EscapeString(s, slash);
      Append(obj);
      Append("\"");
    }

    /** `_write`: appends a text of the value. */
    method Write(v: Value) returns (ghost t: string)
      modifies this`results
      ensures results == old(results) + t && Written(v, slash, t)
      decreases v, 1
    {
      hide Escape, Digits, Commas, MemberTexts, WrittenItems, WrittenMembers;
      match v
      case Null => t := "null"; Append("null");
      case Bool(b) => t := if b then "true" else "false"; Append(if b then "true" else "false");
      case Num(n) => t := Decimal(n); Append(Decimal(n));
      case Str(s) => t := Quoted(s, slash); WriteString(s);
      case Arr(items) => t := WriteArray(v);
      case Obj(m) => t := WriteObject(v);
    }

    method WriteArray(v: Value) returns (ghost t: string)
      requires v.Arr?
      modifies this`results
      ensures results == old(results) + t && Written(v, slash, t)
      decreases v, 0
    {
      hide Written, Commas, Listed, WrittenItems;
      var n := |v.items|;
      Append("[");
      ghost var texts: seq<string> := [];
      ghost var written := "";
      NoItems(v, slash);
      for k := 0 to |v.items|
        invariant n == |v.items| - k && |texts| == k && WrittenItems(v, slash, texts)
        invariant results == old(results) + "[" + written && written == Listed(texts, |v.items|)
      {
        n := n - 1;
        ghost var text := WriteItem(v, k, n > 0);
        ghost var part := text + if n > 0 then "," else "";
        ListedMore(texts, text, |v.items|);
        ItemsMore(v, slash, texts, text);
        Assoc(old(results) + "[", written, part);
        texts, written := texts + [text], written + part;
      }
      Append("]");
      ListedAll(texts);
      t := "[" + Commas(texts, |texts|) + "]";
      ArrayWritten(v, slash, texts);
      assert results == old(results) + t;
    }

    method WriteItem(v: Value, k: nat, more: bool) returns (ghost text: string)
      requires v.Arr? && k < |v.items|
      modifies this`results
      ensures results == old(results) + (text + if more then "," else "") && Written(v.items[k], slash, text)
      decreases v, 0, 0
    {
      hide Written;
      text := Write(v.items[k]);
      if more {
        Append(",");
      }
    }

    method WriteObject(v: Value) returns (ghost t: string)
      requires v.Obj?
      modifies this`results
      ensures results == old(results) + t && Written(v, slash, t)
      decreases v, 0
    {
      hide Written, Commas, MemberTexts, Listed, WrittenMembers, Taken, Member;
      Append("{");
      var rest := v.members.Keys;
      ghost var keys: seq<string>, texts: seq<string>, written := [], [], "";
      NoneTaken(v, slash);
      while rest != {}
        invariant rest <= v.members.Keys && Taken(v.members, rest, keys) && |keys| + |rest| == |v.members|
        invariant |texts| == |keys| && WrittenMembers(v, slash, keys, texts)
        invariant results == old(results) + "{" + written
        invariant written == Listed(MemberTexts(keys, texts, slash), |v.members|)
        decreases |rest|
      {
        var key :| key in rest;
        ghost var text := WriteMember(v, key, |rest - {key}| > 0);
        MemberMore(keys, texts, slash, key, text, |v.members|);
        OneTaken(v, slash, rest, keys, texts, key, text);
        ghost var part := Member(key, text, slash) + if |rest - {key}| > 0 then "," else "";
        Assoc(old(results) + "{", written, part);
        rest := rest - {key};
        keys, texts, written := keys + [key], texts + [text], written + part;
      }
      Append("}");
      ghost var parts := MemberTexts(keys, texts, slash);
      ListedAll(parts);
      t := "{" + Commas(parts, |keys|) + "}";
      ObjectWritten(v, slash, keys, texts);
      assert results == old(results) + t;
    }

    method WriteMember(v: Value, key: string, more: bool) returns (ghost text: string)
      requires v.Obj? && key in v.members
      modifies this`results
      ensures results == old(results) + (Member(key, text, slash) + if more then "," else "")
      ensures Written(v.members[key], slash, text)
      decreases v, 0, 0
    {
      hide Written, Quoted;
      WriteString(key);
      Append(":");
      text := Write(v.members[key]);
      if more {
        Append(",");
      }
    }
  }

  /** The keys taken from a dictionary so far, each once. */
  ghost predicate Taken(m: map<string, Value>, rest: set<string>, keys: seq<string>) {
    && rest <= m.Keys && (forall x :: x in keys <==> x in m && x !in rest)
    && forall i, j :: 0 <= i < j < |keys| ==> keys[i] != keys[j]
  }

  lemma Assoc(a: string, b: string, c: string)
    ensures (a + b) + c == a + (b + c)
  {
  }

  lemma NoItems(v: Value, slash: bool)
    requires v.Arr?
    ensures WrittenItems(v, slash, []) && Listed([], |v.items|) == ""
  {
  }

  lemma ItemsMore(v: Value, slash: bool, texts: seq<string>, text: string)
    requires v.Arr? && |texts| < |v.items| && WrittenItems(v, slash, texts) && Written(v.items[|texts|], slash, text)
    ensures WrittenItems(v, slash, texts + [text])
  {
    hide Written;
  }

  lemma NoneTaken(v: Value, slash: bool)
    requires v.Obj?
    ensures Taken(v.members, v.members.Keys, []) && WrittenMembers(v, slash, [], [])
    ensures Listed(MemberTexts([], [], slash), |v.members|) == ""
  {
  }

  lemma OneTaken(v: Value, slash: bool, rest: set<string>, keys: seq<string>, texts: seq<string>, key: string,
                 text: string)
    requires v.Obj? && key in v.members && key in rest && Taken(v.members, rest, keys)
    requires |texts| == |keys| && WrittenMembers(v, slash, keys, texts) && Written(v.members[key], slash, text)
    ensures Taken(v.members, rest - {key}, keys + [key]) && WrittenMembers(v, slash, keys + [key], texts + [text])
  {
    hide Written;
  }

  lemma MemberMore(keys: seq<string>, texts: seq<string>, slash: bool, key: string, text: string, n: nat)
    requires |keys| == |texts| && |keys| < n
    ensures Listed(MemberTexts(keys + [key], texts + [text], slash), n) ==
      Listed(MemberTexts(keys, texts, slash), n) + (Member(key, text, slash) + if |keys| + 1 < n then "," else "")
  {
    hide Listed, Member;
    var parts, part := MemberTexts(keys, texts, slash), Member(key, text, slash);
    assert MemberTexts(keys + [key], texts + [text], slash) == parts + [part];
    ListedMore(parts, part, n);
  }

  lemma ObjectWritten(v: Value, slash: bool, keys: seq<string>, texts: seq<string>)
    requires v.Obj? && Taken(v.members, {}, keys) && WrittenMembers(v, slash, keys, texts)
    ensures Written(v, slash, "{" + Commas(MemberTexts(keys, texts, slash), |keys|) + "}")
  {
    hide Commas, MemberTexts;
    assert Lists(keys, v.members);
  }

  /** `read(write(v)) == v` for every value, with or without escaped slashes. */
  method WriteThenRead(v: Value, slash: bool) returns (r: Result<Value>)
    ensures r == Returned(v)
  {
    hide Written, ReadValue;
    var writer := new Writer(slash);
    ghost var t := writer.Write(v);
    assert writer.results == t;
    var reader := new Reader(writer.results);
    r := reader.Read();
    RoundTrip(v, slash, t);
  }

  /** The texts written so far, of `n` in all. */
  ghost function Listed(parts: seq<string>, n: nat): string
    requires |parts| <= n
  {
    if parts == [] then ""
    else var k := |parts| - 1; Listed(parts[..k], n) + (parts[k] + if |parts| < n then "," else "")
  }

  lemma ListedMore(parts: seq<string>, part: string, n: nat)
    requires |parts| < n
    ensures Listed(parts + [part], n) == Listed(parts, n) + (part + if |parts| + 1 < n then "," else "")
  {
    assert (parts + [part])[..|parts|] == parts;
  }

  lemma {:induction false} ListedPrefix(parts: seq<string>, k: nat)
    requires k <= |parts|
    ensures Listed(parts[..k], |parts|) == Commas(parts, k)
  {
    if k > 0 {
      ListedPrefix(parts, k - 1);
      assert parts[..k][..k - 1] == parts[..k - 1];
    }
  }

  lemma ListedAll(parts: seq<string>)
    ensures Listed(parts, |parts|) == Commas(parts, |parts|)
  {
    ListedPrefix(parts, |parts|);
    assert parts[..|parts|] == parts;
  }

  lemma ArrayWritten(v: Value, slash: bool, texts: seq<string>)
    requires v.Arr? && |texts| == |v.items| && WrittenItems(v, slash, texts)
    ensures Written(v, slash, "[" + Commas(texts, |texts|) + "]")
  {
  }

  lemma NthChar(s: string, i: nat, t: string, k: nat)
    requires k < |t|
    ensures At(s, i, t) ==> i + k < |s| && s[i + k] == t[k]
  {
    if At(s, i, t) {
      AtChar(s, i, t);
    }
  }
}
