/** The JSON reader and writer of the result tools: what they compute, and that reading undoes writing. */
module Json {

  /** Values: byte strings, integers, lists and dictionaries with string keys. */
  datatype Value =
    | Null
    | Bool(b: bool)
    | Num(n: int)
    | Str(s: string)
    | Arr(items: seq<Value>)
    | Obj(members: map<string, Value>)

  // ----- writing

  /** `str.replace` for a single character. */
  function Replace(s: string, c: char, sub: string): string {
    if s == "" then "" else (if s[0] == c then sub else [s[0]]) + Replace(s[1..], c, sub)
  }

  /** The replace passes of `_write`, in their order. */
  function EscapePasses(s: string, slash: bool): string {
    var s1 := Replace(s, '\\', "\\\\");
    var s2 := if slash then Replace(s1, '/', "\\/") else s1;
    var s3 := Replace(s2, '\"', "\\\"");
    var s4 := Replace(s3, '\U{8}', "\\b");
    var s5 := Replace(s4, '\U{c}', "\\f");
    var s6 := Replace(s5, '\n', "\\n");
    var s7 := Replace(s6, '\r', "\\r");
    Replace(s7, '\t', "\\t")
  }

  /** The escape of one character. */
  function EscapeChar(c: char, slash: bool): string {
    if c == '\\' then "\\\\"
    else if c == '/' && slash then "\\/"
    else if c == '\"' then "\\\""
    else if c == '\U{8}' then "\\b"
    else if c == '\U{c}' then "\\f"
    else if c == '\n' then "\\n"
    else if c == '\r' then "\\r"
    else if c == '\t' then "\\t"
    else [c]
  }

  function Escape(s: string, slash: bool): string {
    if s == "" then "" else EscapeChar(s[0], slash) + Escape(s[1..], slash)
  }

  lemma {:induction false} ReplaceConcat(a: string, b: string, c: char, sub: string)
    ensures Replace(a + b, c, sub) == Replace(a, c, sub) + Replace(b, c, sub)
  {
    if a == "" {
      assert a + b == b;
    } else {
      assert (a + b)[1..] == a[1..] + b;
      ReplaceConcat(a[1..], b, c, sub);
    }
  }

  lemma ReplaceChar(x: char, c: char, sub: string)
    ensures Replace([x], c, sub) == if x == c then sub else [x]
  {
    assert [x][1..] == "";
  }

  lemma ReplacePair(x: char, y: char, c: char, sub: string)
    requires x != c && y != c
    ensures Replace([x, y], c, sub) == [x, y]
  {
    assert [x, y] == [x] + [y];
    ReplaceConcat([x], [y], c, sub);
    ReplaceChar(x, c, sub);
    ReplaceChar(y, c, sub);
  }

  lemma PassesConcat(a: string, b: string, slash: bool)
    ensures EscapePasses(a + b, slash) == EscapePasses(a, slash) + EscapePasses(b, slash)
  {
    hide Replace;
    ReplaceConcat(a, b, '\\', "\\\\");
    var a1, b1 := Replace(a, '\\', "\\\\"), Replace(b, '\\', "\\\\");
    ReplaceConcat(a1, b1, '/', "\\/");
    var a2, b2 := if slash then Replace(a1, '/', "\\/") else a1, if slash then Replace(b1, '/', "\\/") else b1;
    ReplaceConcat(a2, b2, '\"', "\\\"");
    var a3, b3 := Replace(a2, '\"', "\\\""), Replace(b2, '\"', "\\\"");
    ReplaceConcat(a3, b3, '\U{8}', "\\b");
    var a4, b4 := Replace(a3, '\U{8}', "\\b"), Replace(b3, '\U{8}', "\\b");
    ReplaceConcat(a4, b4, '\U{c}', "\\f");
    var a5, b5 := Replace(a4, '\U{c}', "\\f"), Replace(b4, '\U{c}', "\\f");
    ReplaceConcat(a5, b5, '\n', "\\n");
    var a6, b6 := Replace(a5, '\n', "\\n"), Replace(b5, '\n', "\\n");
    ReplaceConcat(a6, b6, '\r', "\\r");
    ReplaceConcat(Replace(a6, '\r', "\\r"), Replace(b6, '\r', "\\r"), '\t', "\\t");
  }

  /** What a pass makes of a character, or of an escape already made. */
  function Pass(t: string, c: char, sub: string): string {
    if t == [c] then sub else t
  }

  lemma PassIsReplace(t: string, c: char, sub: string)
    requires |t| == 1 || (|t| == 2 && t[0] == '\\' && c != '\\' && t[1] != c)
    ensures Replace(t, c, sub) == Pass(t, c, sub)
  {
    if |t| == 1 {
      assert t == [t[0]];
      ReplaceChar(t[0], c, sub);
    } else {
      assert t == [t[0], t[1]];
      ReplacePair(t[0], t[1], c, sub);
    }
  }

  lemma PassesChar(c: char, slash: bool)
    ensures EscapePasses([c], slash) == EscapeChar(c, slash)
  {
    hide Replace;
    PassIsReplace([c], '\\', "\\\\");
    var s1 := Pass([c], '\\', "\\\\");
    if slash {
      PassIsReplace(s1, '/', "\\/");
    }
    var s2 := if slash then Pass(s1, '/', "\\/") else s1;
    PassIsReplace(s2, '\"', "\\\"");
    var s3 := Pass(s2, '\"', "\\\"");
    PassIsReplace(s3, '\U{8}', "\\b");
    var s4 := Pass(s3, '\U{8}', "\\b");
    PassIsReplace(s4, '\U{c}', "\\f");
    var s5 := Pass(s4, '\U{c}', "\\f");
    PassIsReplace(s5, '\n', "\\n");
    var s6 := Pass(s5, '\n', "\\n");
    PassIsReplace(s6, '\r', "\\r");
    PassIsReplace(Pass(s6, '\r', "\\r"), '\t', "\\t");
  }

  /** The successive replace passes do not touch each other's escapes: they equal one escape per character. */
  lemma {:induction false} PassesAreOneEscape(s: string, slash: bool)
    ensures EscapePasses(s, slash) == Escape(s, slash)
  {
    if s != "" {
      assert s == [s[0]] + s[1..];
      PassesConcat([s[0]], s[1..], slash);
      PassesChar(s[0], slash);
      PassesAreOneEscape(s[1..], slash);
      hide EscapePasses;
    }
  }

  function Quoted(s: string, slash: bool): string {
    "\"" + Escape(s, slash) + "\""
  }

  function Digit(d: nat): char
    requires d < 10
  {
    '0' + d as char
  }

  /** `str` of a natural number. */
  function Digits(n: nat): (t: string)
    ensures |t| > 0 && forall i :: 0 <= i < |t| ==> IsDigit(t[i])
  {
    if n < 10 then [Digit(n)] else Digits(n / 10) + [Digit(n % 10)]
  }

  function Decimal(n: int): string {
    if n < 0 then "-" + Digits(-n) else Digits(n)
  }

  /** The first `k` parts, with a comma after every part but the last of all. */
  function Commas(parts: seq<string>, k: nat): string
    requires k <= |parts|
  {
    if k == 0 then "" else Commas(parts, k - 1) + parts[k - 1] + if k < |parts| then "," else ""
  }

  function Member(key: string, text: string, slash: bool): string {
    Quoted(key, slash) + ":" + text
  }

  /** The keys of a dictionary in some order, each once. */
  ghost predicate Lists(keys: seq<string>, m: map<string, Value>) {
    (forall k :: k in m <==> k in keys) && forall i, j :: 0 <= i < j < |keys| ==> keys[i] != keys[j]
  }

  /** The first texts are texts of the first items of a list. */
  ghost predicate WrittenItems(v: Value, slash: bool, texts: seq<string>)
    requires v.Arr?
    decreases v, 0
  {
    |texts| <= |v.items| && forall i :: 0 <= i < |texts| ==> Written(v.items[i], slash, texts[i])
  }

  /** The texts are texts of the values of these keys. */
  ghost predicate WrittenMembers(v: Value, slash: bool, keys: seq<string>, texts: seq<string>)
    requires v.Obj?
    decreases v, 0
  {
    |texts| == |keys|
    && forall i :: 0 <= i < |keys| ==> keys[i] in v.members && Written(v.members[keys[i]], slash, texts[i])
  }

  ghost function MemberTexts(keys: seq<string>, texts: seq<string>, slash: bool): (r: seq<string>)
    requires |keys| == |texts|
    ensures |r| == |keys| && forall i :: 0 <= i < |keys| ==> r[i] == Member(keys[i], texts[i], slash)
  {
    seq(|keys|, i requires 0 <= i < |keys| => Member(keys[i], texts[i], slash))
  }

  /** `t` is a text that the writer may produce for `v`: dictionaries are listed in any order. */
  ghost predicate Written(v: Value, slash: bool, t: string)
    decreases v, 1
  {
    match v
    case Null => t == "null"
    case Bool(b) => t == if b then "true" else "false"
    case Num(n) => t == Decimal(n)
    case Str(s) => t == Quoted(s, slash)
    case Arr(items) =>
      exists texts :: |texts| == |items| && WrittenItems(v, slash, texts) && t == "[" + Commas(texts, |texts|) + "]"
    case Obj(m) =>
      exists keys, texts :: && Lists(keys, m) && WrittenMembers(v, slash, keys, texts)
        && t == "{" + Commas(MemberTexts(keys, texts, slash), |keys|) + "}"
  }

  // ----- reading

  /** What reading at a position gives: a value and the position after it, an exception, or text with a comment, a
      `\u` escape or a floating-point number, which are not modelled. */
  datatype Outcome<+T> = Got(value: T, next: nat) | Failed | Unmodelled

  predicate IsSpace(c: char) {
    c == ' ' || c == '\t' || c == '\n' || c == '\r' || c == '\U{b}' || c == '\U{c}'
  }

  predicate IsDigit(c: char) {
    '0' <= c <= '9'
  }

  predicate InNumber(c: char) {
    IsDigit(c) || c == '.' || c == 'e'
  }

  function SkipSpace(s: string, i: nat): (j: nat)
    requires i <= |s|
    ensures i <= j <= |s| && (j < |s| ==> !IsSpace(s[j]))
    decreases |s| - i
  {
    if i < |s| && IsSpace(s[i]) then SkipSpace(s, i + 1) else i
  }

  /** `_read`. */
  function ReadValue(s: string, i: nat): (r: Outcome<Value>)
    requires i <= |s|
    ensures r.Got? ==> i < r.next <= |s|
    decreases |s| - i, 1
  {
    var j := SkipSpace(s, i);
    if j == |s| then Failed
    else if s[j] == '{' then ReadObject(s, j)
    else if s[j] == '[' then ReadArray(s, j)
    else if s[j] == '\"' then
      var r := ReadString(s, j + 1, "");
      if r.Got? then Got(Str(r.value), r.next) else if r.Failed? then Failed else Unmodelled
    else if s[j] == '-' || IsDigit(s[j]) then ReadNumber(s, j)
    else if s[j] == 't' then ReadWord(s, j, "true", Bool(true))
    else if s[j] == 'f' then ReadWord(s, j, "false", Bool(false))
    else if s[j] == 'n' then ReadWord(s, j, "null", Null)
    else if s[j] == '/' then Unmodelled
    else Failed
  }

  predicate At(s: string, i: nat, t: string) {
    i + |t| <= |s| && s[i..i + |t|] == t
  }

  function ReadWord(s: string, i: nat, word: string, v: Value): (r: Outcome<Value>) {
    if At(s, i, word) then Got(v, i + |word|) else Failed
  }

  function NumberEnd(s: string, i: nat): (j: nat)
    requires i <= |s|
    ensures i <= j <= |s| && (j < |s| ==> !IsDigit(s[j]))
    decreases |s| - i
  {
    if i < |s| && IsDigit(s[i]) then NumberEnd(s, i + 1) else i
  }

  /** The value of a run of digits after `n`. */
  function FromDigits(s: string, n: nat): nat
    requires forall i :: 0 <= i < |s| ==> IsDigit(s[i])
  {
    if s == "" then n else
      assert IsDigit(s[0]);
      FromDigits(s[1..], 10 * n + (s[0] - '0') as nat)
  }

  lemma {:induction false} NumberEndDigits(s: string, i: nat)
    requires i <= |s|
    ensures forall k :: i <= k < NumberEnd(s, i) ==> IsDigit(s[k])
    decreases |s| - i
  {
    if i < |s| && IsDigit(s[i]) {
      NumberEndDigits(s, i + 1);
    }
  }

  /** `int` of a sign or digit and the digits after it. */
  function ToInt(t: string): (r: Outcome<int>)
    requires |t| > 0 && (t[0] == '-' || IsDigit(t[0])) && forall i :: 1 <= i < |t| ==> IsDigit(t[i])
  {
    if t == "-" then Failed
    else
      var n: int := FromDigits(if t[0] == '-' then t[1..] else t, 0);
      Got(if t[0] == '-' then -n else n, |t|)
  }

  /** `_readNumber` without the floating-point forms. */
  function ReadNumber(s: string, i: nat): (r: Outcome<Value>)
    requires i < |s| && (s[i] == '-' || IsDigit(s[i]))
    ensures r.Got? ==> i < r.next <= |s|
  {
    var j := NumberEnd(s, i + 1);
    NumberEndDigits(s, i + 1);
    if j < |s| && InNumber(s[j]) then Unmodelled
    else
      var n := ToInt(s[i..j]);
      if n.Got? then Got(Num(n.value), j) else Failed
  }

  function Unescape(c: char): char {
    if c == 'b' then '\U{8}' else if c == 'r' then '\r' else if c == 'n' then '\n'
    else if c == 'f' then '\U{c}' else if c == 't' then '\t' else c
  }

  /** `_readString` after the opening quote, with the characters read so far. */
  function ReadString(s: string, i: nat, done: string): (r: Outcome<string>)
    requires i <= |s|
    ensures r.Got? ==> i < r.next <= |s|
    decreases |s| - i
  {
    if i == |s| then Failed
    else if s[i] == '\"' then Got(done, i + 1)
    else if s[i] != '\\' then ReadString(s, i + 1, done + [s[i]])
    else if i + 1 == |s| then Failed
    else if s[i + 1] == 'u' then Unmodelled
    else if s[i + 1] in "brnft\"/\\" then ReadString(s, i + 2, done + [Unescape(s[i + 1])])
    else Failed
  }

  /** The separator after an item: the closing bracket, a comma, or something else. */
  function ReadSeparator(s: string, i: nat, close: char): (r: Outcome<bool>)
    requires i <= |s|
    ensures r.Got? ==> i < r.next <= |s|
  {
    var j := SkipSpace(s, i);
    if j == |s| then Failed
    else if s[j] == '/' then Unmodelled
    else if s[j] == close then Got(true, j + 1)
    else if s[j] == ',' then Got(false, j + 1)
    else Failed
  }

  /** `_readArray`: no whitespace may stand in an empty list. */
  function ReadArray(s: string, i: nat): (r: Outcome<Value>)
    requires i < |s|
    ensures r.Got? ==> i < r.next <= |s|
    decreases |s| - i, 0
  {
    if i + 1 < |s| && s[i + 1] == ']' then Got(Arr([]), i + 2) else ReadItems(s, i + 1, [])
  }

  /** `_readObject`. */
  function ReadObject(s: string, i: nat): (r: Outcome<Value>)
    requires i < |s|
    ensures r.Got? ==> i < r.next <= |s|
    decreases |s| - i, 0
  {
    if i + 1 < |s| && s[i + 1] == '}' then Got(Obj(map[]), i + 2) else ReadMembers(s, i + 1, map[])
  }

  /** The loop of `_readArray`. */
  function ReadItems(s: string, i: nat, done: seq<Value>): (r: Outcome<Value>)
    requires i <= |s|
    ensures r.Got? ==> i < r.next <= |s|
    decreases |s| - i, 2
  {
    var item := ReadValue(s, i);
    if !item.Got? then item
    else
      var sep := ReadSeparator(s, item.next, ']');
      if sep.Got? then
        (if sep.value then Got(Arr(done + [item.value]), sep.next) else ReadItems(s, sep.next, done + [item.value]))
      else if sep.Failed? then Failed else Unmodelled
  }

  function ReadColon(s: string, i: nat): (r: Outcome<bool>)
    requires i <= |s|
    ensures r.Got? ==> i < r.next <= |s|
  {
    var j := SkipSpace(s, i);
    if j == |s| then Failed
    else if s[j] == '/' then Unmodelled
    else if s[j] == ':' then Got(true, j + 1)
    else Failed
  }

  /** The loop of `_readObject`. */
  function ReadMembers(s: string, i: nat, done: map<string, Value>): (r: Outcome<Value>)
    requires i <= |s|
    ensures r.Got? ==> i < r.next <= |s|
    decreases |s| - i, 2
  {
    var key := ReadValue(s, i);
    if !key.Got? then key
    else if !key.value.Str? then Failed
    else
      var colon := ReadColon(s, key.next);
      if colon.Failed? then Failed
      else if colon.Unmodelled? then Unmodelled
      else
        var item := ReadValue(s, colon.next);
        if !item.Got? then item
        else
          var sep := ReadSeparator(s, item.next, '}');
          var more := done[key.value.s := item.value];
          if sep.Got? then (if sep.value then Got(Obj(more), sep.next) else ReadMembers(s, sep.next, more))
          else if sep.Failed? then Failed else Unmodelled
  }

  // ----- reading undoes writing

  lemma AtConcat(s: string, i: nat, a: string, b: string)
    requires At(s, i, a + b)
    ensures At(s, i, a) && At(s, i + |a|, b) && i + |a| + |b| <= |s|
  {
    assert s[i..i + |a|] == (a + b)[..|a|];
    assert s[i + |a|..i + |a| + |b|] == (a + b)[|a|..];
  }

  lemma AtChar(s: string, i: nat, t: string)
    requires At(s, i, t)
    ensures forall k :: 0 <= k < |t| ==> s[i + k] == t[k]
  {
    forall k | 0 <= k < |t|
      ensures s[i + k] == t[k]
    {
      assert s[i..i + |t|][k] == s[i + k];
    }
  }

  lemma SkipNothing(s: string, i: nat)
    requires i < |s| && !IsSpace(s[i])
    ensures SkipSpace(s, i) == i
  {
  }

  /** What the first character of a list, dictionary or string leads to. */
  lemma Opens(s: string, i: nat)
    requires i < |s|
    ensures s[i] == '{' ==>
      ReadValue(s, i) ==
        (if i + 1 < |s| && s[i + 1] == '}' then Got(Obj(map[]), i + 2) else ReadMembers(s, i + 1, map[]))
    ensures s[i] == '[' ==>
      ReadValue(s, i) == (if i + 1 < |s| && s[i + 1] == ']' then Got(Arr([]), i + 2) else ReadItems(s, i + 1, []))
    ensures s[i] == '\"' && ReadString(s, i + 1, "").Got? ==>
      ReadValue(s, i) == Got(Str(ReadString(s, i + 1, "").value), ReadString(s, i + 1, "").next)
  {
    hide ReadMembers, ReadItems, ReadString;
    if !IsSpace(s[i]) {
      SkipNothing(s, i);
    }
  }

  /** Reading an escaped string and its closing quote gives the string. */
  lemma {:induction false} StringReadBack(s: string, i: nat, done: string, x: string, slash: bool)
    requires At(s, i, Escape(x, slash) + "\"")
    ensures ReadString(s, i, done) == Got(done + x, i + |Escape(x, slash)| + 1)
    decreases |x|
  {
    hide ReadString, EscapeChar, Escape, At;
    EscapeCons(x, slash);
    if x == "" {
      assert Escape(x, slash) + "\"" == "\"" && done + x == done;
      EndOfString(s, i, done);
    } else {
      var c, e, rest := x[0], EscapeChar(x[0], slash), Escape(x[1..], slash);
      assert Escape(x, slash) + "\"" == e + (rest + "\"");
      AtConcat(s, i, e, rest + "\"");
      StringReadBack(s, i + |e|, done + [c], x[1..], slash);
      assert done + [c] + x[1..] == done + x;
      OneEscape(s, i, done, c, slash);
    }
  }

  lemma EscapeCons(x: string, slash: bool)
    ensures Escape(x, slash) == if x == "" then "" else EscapeChar(x[0], slash) + Escape(x[1..], slash)
  {
  }

  lemma EndOfString(s: string, i: nat, done: string)
    requires At(s, i, "\"")
    ensures ReadString(s, i, done) == Got(done, i + 1)
  {
    AtChar(s, i, "\"");
    assert s[i] == '\"';
  }

  lemma OneEscape(s: string, i: nat, done: string, c: char, slash: bool)
    requires At(s, i, EscapeChar(c, slash)) && i + |EscapeChar(c, slash)| < |s|
    ensures ReadString(s, i, done) == ReadString(s, i + |EscapeChar(c, slash)|, done + [c])
  {
    hide EscapeChar, At, Unescape;
    AtChar(s, i, EscapeChar(c, slash));
    EscapeShape(c, slash);
    assert s[i] == EscapeChar(c, slash)[0];
    if |EscapeChar(c, slash)| == 2 {
      assert s[i + 1] == EscapeChar(c, slash)[1];
    }
  }

  /** A character is written as itself or as an escape that the reader takes back to it. */
  lemma EscapeShape(c: char, slash: bool)
    ensures var e := EscapeChar(c, slash);
            if |e| == 1 then e[0] == c && c != '\"' && c != '\\'
            else |e| == 2 && e[0] == '\\' && e[1] != 'u' && e[1] in "brnft\"/\\" && Unescape(e[1]) == c
  {
  }

  lemma {:induction false} FromDigitsSnoc(t: string, c: char, n: nat)
    requires (forall i :: 0 <= i < |t| ==> IsDigit(t[i])) && IsDigit(c)
    ensures FromDigits(t + [c], n) == 10 * FromDigits(t, n) + (c - '0') as nat
  {
    if t == "" {
      assert ("" + [c])[1..] == "";
    } else {
      assert (t + [c])[1..] == t[1..] + [c];
      assert IsDigit(t[0]);
      FromDigitsSnoc(t[1..], c, 10 * n + (t[0] - '0') as nat);
    }
  }

  lemma {:induction false} DigitsReadBack(n: nat)
    ensures FromDigits(Digits(n), 0) == n
  {
    if n < 10 {
      assert [Digit(n)][1..] == "";
    } else {
      DigitsReadBack(n / 10);
      FromDigitsSnoc(Digits(n / 10), Digit(n % 10), 0);
    }
  }

  lemma {:induction false} NumberEndIs(s: string, i: nat, j: nat)
    requires i <= j <= |s| && (forall k :: i <= k < j ==> IsDigit(s[k])) && (j < |s| ==> !IsDigit(s[j]))
    ensures NumberEnd(s, i) == j
    decreases j - i
  {
    if i < j {
      NumberEndIs(s, i + 1, j);
    }
  }

  /** Where a number may end. */
  predicate Boundary(s: string, i: nat) {
    i < |s| ==> !InNumber(s[i])
  }

  lemma NumberReadBack(s: string, i: nat, n: int)
    requires At(s, i, Decimal(n)) && Boundary(s, i + |Decimal(n)|)
    ensures ReadValue(s, i) == Got(Num(n), i + |Decimal(n)|)
  {
    var t := Decimal(n);
    AtChar(s, i, t);
    assert s[i] == t[0];
    SkipNothing(s, i);
    NumberEndIs(s, i + 1, i + |t|);
    assert s[i..i + |t|] == t;
    if n < 0 {
      DigitsReadBack(-n);
      assert t[1..] == Digits(-n);
    } else {
      DigitsReadBack(n);
    }
  }

  lemma QuotedReadBack(s: string, i: nat, x: string, slash: bool)
    requires At(s, i, Quoted(x, slash))
    ensures ReadValue(s, i) == Got(Str(x), i + |Quoted(x, slash)|)
  {
    hide Escape, ReadValue, ReadString;
    var e := Escape(x, slash);
    assert Quoted(x, slash) == "\"" + (e + "\"");
    AtConcat(s, i, "\"", e + "\"");
    AtChar(s, i, "\"");
    assert s[i] == '\"';
    Opens(s, i);
    StringReadBack(s, i + 1, "", x, slash);
    assert "" + x == x;
  }

  // ----- texts with whitespace between their tokens

  /** Spaces, tabs and line breaks. */
  predicate Blank(w: string) {
    forall i :: 0 <= i < |w| ==> w[i] in " \t\n\r\U{b}\U{c}"
  }

  /** A text of the value, with whitespace before it, behind every item, key and colon, and before every key. */
  ghost predicate Laid(v: Value, slash: bool, t: string)
    decreases v, 2
  {
    exists w, core :: Blank(w) && LaidCore(v, slash, core) && t == w + core
  }

  ghost predicate LaidCore(v: Value, slash: bool, t: string)
    decreases v, 1
  {
    match v
    case Null => t == "null"
    case Bool(b) => t == if b then "true" else "false"
    case Num(n) => t == Decimal(n)
    case Str(s) => t == Quoted(s, slash)
    case Arr(items) =>
      exists parts :: |parts| == |items| && LaidItems(v, slash, parts) && t == "[" + Commas(parts, |parts|) + "]"
    case Obj(m) =>
      exists keys, parts :: && Lists(keys, m) && LaidMembers(v, slash, keys, parts)
        && t == "{" + Commas(parts, |parts|) + "}"
  }

  ghost predicate LaidItems(v: Value, slash: bool, parts: seq<string>)
    requires v.Arr?
    decreases v, 0
  {
    |parts| <= |v.items| && forall i :: 0 <= i < |parts| ==> LaidPart(v.items[i], slash, parts[i])
  }

  ghost predicate LaidMembers(v: Value, slash: bool, keys: seq<string>, parts: seq<string>)
    requires v.Obj?
    decreases v, 0
  {
    && |parts| == |keys|
    && forall i :: 0 <= i < |keys| ==> keys[i] in v.members && LaidMember(v.members[keys[i]], keys[i], slash, parts[i])
  }

  ghost predicate LaidPart(v: Value, slash: bool, t: string)
    decreases v, 3
  {
    exists a, w :: Laid(v, slash, a) && Blank(w) && t == a + w
  }

  ghost predicate LaidMember(v: Value, key: string, slash: bool, t: string)
    decreases v, 4
  {
    exists w1, w2, b :: && Blank(w1) && Blank(w2) && LaidPart(v, slash, b)
      && t == w1 + (Quoted(key, slash) + (w2 + (":" + b)))
  }

  /** What the writer makes is such a text, without whitespace. */
  lemma {:induction false} WrittenIsLaid(v: Value, slash: bool, t: string)
    requires Written(v, slash, t)
    ensures LaidCore(v, slash, t)
    decreases v
  {
    hide Commas, MemberTexts, Quoted, Decimal;
    match v
    case Arr(items) =>
      var texts :| |texts| == |items| && WrittenItems(v, slash, texts) && t == "[" + Commas(texts, |texts|) + "]";
      forall i | 0 <= i < |texts|
        ensures LaidPart(items[i], slash, texts[i])
      {
        WrittenIsLaid(items[i], slash, texts[i]);
        Unspaced(items[i], slash, texts[i]);
      }
      assert LaidItems(v, slash, texts);
    case Obj(m) =>
      var keys, texts :| Lists(keys, m) && WrittenMembers(v, slash, keys, texts)
        && t == "{" + Commas(MemberTexts(keys, texts, slash), |keys|) + "}";
      var parts := MemberTexts(keys, texts, slash);
      forall i | 0 <= i < |keys|
        ensures LaidMember(m[keys[i]], keys[i], slash, parts[i])
      {
        WrittenIsLaid(m[keys[i]], slash, texts[i]);
        Unspaced(m[keys[i]], slash, texts[i]);
        UnspacedMember(m[keys[i]], keys[i], slash, texts[i]);
      }
      assert LaidMembers(v, slash, keys, parts);
    case _ =>
  }

  lemma Unspaced(v: Value, slash: bool, t: string)
    requires LaidCore(v, slash, t)
    ensures Laid(v, slash, t) && LaidPart(v, slash, t)
  {
    hide LaidCore;
    assert Blank("") && t == "" + t && t == t + "";
    assert Laid(v, slash, t);
  }

  lemma UnspacedMember(v: Value, key: string, slash: bool, text: string)
    requires LaidPart(v, slash, text)
    ensures LaidMember(v, key, slash, Member(key, text, slash))
  {
    hide LaidPart, Quoted;
    assert Blank("");
    assert Member(key, text, slash) == "" + (Quoted(key, slash) + ("" + (":" + text)));
  }

  lemma CoreStarts(v: Value, slash: bool, t: string)
    requires LaidCore(v, slash, t)
    ensures |t| > 0 && !IsSpace(t[0]) && t[0] != '/' && t[0] != ']' && t[0] != '}'
  {
    hide LaidItems, LaidMembers, Commas;
  }

  lemma LaidStarts(v: Value, slash: bool, t: string)
    requires Laid(v, slash, t)
    ensures |t| > 0 && t[0] != ']' && t[0] != '}'
  {
    hide LaidCore;
    var w, core :| Blank(w) && LaidCore(v, slash, core) && t == w + core;
    CoreStarts(v, slash, core);
    assert t[0] == if w == "" then core[0] else w[0];
  }

  lemma {:induction false} SkipBlank(s: string, i: nat, w: string)
    requires At(s, i, w) && Blank(w)
    ensures SkipSpace(s, i) == SkipSpace(s, i + |w|)
    decreases |w|
  {
    if w != "" {
      AtChar(s, i, w);
      assert s[i] == w[0] && IsSpace(s[i]);
      assert w == [w[0]] + w[1..];
      AtConcat(s, i, [w[0]], w[1..]);
      SkipBlank(s, i + 1, w[1..]);
    }
  }

  /** Whitespace in front makes no difference to any part of the reader. */
  lemma BlankSkipped(s: string, i: nat, w: string, close: char)
    requires At(s, i, w) && Blank(w)
    ensures ReadValue(s, i) == ReadValue(s, i + |w|) && ReadColon(s, i) == ReadColon(s, i + |w|)
    ensures ReadSeparator(s, i, close) == ReadSeparator(s, i + |w|, close)
    ensures Boundary(s, i + |w|) ==> Boundary(s, i)
  {
    hide ReadObject, ReadArray, ReadString, ReadNumber, ReadWord, SkipSpace;
    SkipBlank(s, i, w);
    if w != "" {
      AtChar(s, i, w);
      assert s[i] == w[0];
    }
  }

  /** READING UNDOES WRITING, AND WHITESPACE IS FREE. At any place where a text of a value stands, with any whitespace
      between its tokens, followed by something that is not part of a number, the reader gives the value and stops
      right after the text. */
  lemma {:induction false} LaidReadBack(s: string, i: nat, v: Value, slash: bool, t: string)
    requires Laid(v, slash, t) && At(s, i, t) && (v.Num? ==> Boundary(s, i + |t|))
    ensures ReadValue(s, i) == Got(v, i + |t|)
    decreases v, 2
  {
    hide LaidCore, At, ReadValue, Boundary;
    var w, core :| Blank(w) && LaidCore(v, slash, core) && t == w + core;
    AtConcat(s, i, w, core);
    BlankSkipped(s, i, w, ']');
    CoreReadBack(s, i + |w|, v, slash, core);
  }

  /** The texts of the writer in particular. */
  lemma ReadBack(s: string, i: nat, v: Value, slash: bool, t: string)
    requires Written(v, slash, t) && At(s, i, t) && (v.Num? ==> Boundary(s, i + |t|))
    ensures ReadValue(s, i) == Got(v, i + |t|)
  {
    hide Written, LaidCore, At, ReadValue, Boundary;
    WrittenIsLaid(v, slash, t);
    CoreReadBack(s, i, v, slash, t);
  }

  lemma {:induction false} CoreReadBack(s: string, i: nat, v: Value, slash: bool, t: string)
    requires LaidCore(v, slash, t) && At(s, i, t) && (v.Num? ==> Boundary(s, i + |t|))
    ensures ReadValue(s, i) == Got(v, i + |t|)
    decreases v, 1
  {
    hide ReadItems, ReadMembers, Commas, Digits, ReadString, LaidItems, LaidMembers;
    CoreStarts(v, slash, t);
    AtChar(s, i, t);
    assert s[i] == t[0];
    SkipNothing(s, i);
    match v
    case Null =>
    case Bool(b) =>
    case Num(n) => NumberReadBack(s, i, n);
    case Str(x) => QuotedReadBack(s, i, x, slash);
    case Arr(items) =>
      var parts :| |parts| == |items| && LaidItems(v, slash, parts) && t == "[" + Commas(parts, |parts|) + "]";
      ArrayReadBack(s, i, v, slash, parts);
    case Obj(m) =>
      var keys, parts :| Lists(keys, m) && LaidMembers(v, slash, keys, parts)
        && t == "{" + Commas(parts, |parts|) + "}";
      ObjectReadBack(s, i, v, slash, keys, parts);
  }

  /** Whitespace is not free in an empty list. */
  lemma NoBlankInEmptyList(w: string)
    requires Blank(w)
    ensures ReadValue("[" + w + "]", 0) == if w == "" then Got(Arr([]), 2) else Failed
  {
    var s := "[" + w + "]";
    Opens(s, 0);
    if w != "" {
      hide ReadObject, ReadArray, ReadString, ReadNumber, ReadWord, ReadMembers;
      assert s[1] == w[0] && s[1..1 + |w|] == w && s[1 + |w|] == ']';
      SkipBlank(s, 1, w);
      SkipNothing(s, 1 + |w|);
    }
  }

  lemma ArrayReadBack(s: string, i: nat, v: Value, slash: bool, parts: seq<string>)
    requires v.Arr? && |parts| == |v.items| && LaidItems(v, slash, parts)
    requires At(s, i, "[" + Commas(parts, |parts|) + "]")
    ensures ReadValue(s, i) == Got(v, i + |Commas(parts, |parts|)| + 2)
    decreases v, 0, |parts| + 1
  {
    hide ReadValue, ReadItems, LaidPart, At, Commas, SkipSpace;
    var all := Commas(parts, |parts|);
    Bracketed(s, i, '[', all, ']');
    Opens(s, i);
    NoParts(parts);
    if parts == [] {
      assert v.items == [];
    } else {
      PartStarts(s, i + 1, parts, v.items[0], slash);
      assert v.items[..0] == [];
      ItemsReadBack(s, i + 1, v, slash, parts, 0);
    }
  }

  /** Where the parts of a list stand, and what follows each. */
  lemma {:induction false} PartAt(s: string, i: nat, parts: seq<string>, k: nat, n: nat)
    requires k < n <= |parts| && At(s, i, Commas(parts, n))
    ensures At(s, i + |Commas(parts, k)|, parts[k])
    ensures At(s, i + |Commas(parts, k)| + |parts[k]|, if k + 1 < |parts| then "," else "")
    decreases n
  {
    var before, part, comma := Commas(parts, n - 1), parts[n - 1], if n < |parts| then "," else "";
    AtConcat(s, i, before + part, comma);
    AtConcat(s, i, before, part);
    if k + 1 < n {
      PartAt(s, i, parts, k, n - 1);
    }
  }

  lemma SeparatorAt(s: string, i: nat, parts: seq<string>, k: nat, close: char)
    requires k < |parts| && At(s, i, Commas(parts, |parts|)) && At(s, i + |Commas(parts, |parts|)|, [close])
    requires close == ']' || close == '}'
    ensures var q := i + |Commas(parts, k)| + |parts[k]|;
            && q < |s| && Boundary(s, q)
            && ReadSeparator(s, q, close) ==
              if k + 1 == |parts| then Got(true, i + |Commas(parts, |parts|)| + 1)
              else Got(false, i + |Commas(parts, k + 1)|)
  {
    hide Commas, At, ReadSeparator, Boundary;
    PartAt(s, i, parts, k, |parts|);
    CommasLength(parts, k);
    ReadsSeparator(s, i + |Commas(parts, k)| + |parts[k]|, if k + 1 < |parts| then ',' else close, close);
  }

  lemma CommasLength(parts: seq<string>, k: nat)
    requires k < |parts|
    ensures |Commas(parts, k + 1)| == |Commas(parts, k)| + |parts[k]| + if k + 1 < |parts| then 1 else 0
  {
  }

  lemma ReadsSeparator(s: string, i: nat, c: char, close: char)
    requires At(s, i, [c]) && (c == ',' || c == close) && (close == ']' || close == '}')
    ensures i < |s| && Boundary(s, i) && ReadSeparator(s, i, close) == Got(c == close, i + 1)
  {
    AtChar(s, i, [c]);
    assert s[i] == [c][0];
    SkipNothing(s, i);
  }

  lemma PartStarts(s: string, i: nat, parts: seq<string>, v: Value, slash: bool)
    requires parts != [] && At(s, i, Commas(parts, |parts|)) && LaidPart(v, slash, parts[0])
    ensures i < |s| && s[i] != ']'
  {
    hide Laid, Commas;
    PartAt(s, i, parts, 0, |parts|);
    NoParts(parts);
    var a, w :| Laid(v, slash, a) && Blank(w) && parts[0] == a + w;
    LaidStarts(v, slash, a);
    AtChar(s, i, parts[0]);
    assert s[i] == parts[0][0] == a[0];
  }

  /** A part and what stands behind it: the value, then the separator. */
  lemma PartReadBack(s: string, i: nat, v: Value, slash: bool, part: string, close: char)
    requires LaidPart(v, slash, part) && At(s, i, part) && Boundary(s, i + |part|)
    ensures ReadValue(s, i).Got? && ReadValue(s, i).value == v && ReadValue(s, i).next <= |s|
    ensures ReadSeparator(s, ReadValue(s, i).next, close) == ReadSeparator(s, i + |part|, close)
    decreases v, 3
  {
    hide Laid, At, ReadValue, ReadSeparator, Boundary, ReadColon;
    var a, w :| Laid(v, slash, a) && Blank(w) && part == a + w;
    AtConcat(s, i, a, w);
    BlankSkipped(s, i + |a|, w, close);
    LaidReadBack(s, i, v, slash, a);
  }

  lemma ItemsStep(s: string, i: nat, done: seq<Value>)
    requires i <= |s| && ReadValue(s, i).Got? && ReadSeparator(s, ReadValue(s, i).next, ']').Got?
    ensures var item := ReadValue(s, i);
            var sep := ReadSeparator(s, item.next, ']');
            ReadItems(s, i, done) ==
              if sep.value then Got(Arr(done + [item.value]), sep.next) else ReadItems(s, sep.next, done + [item.value])
  {
    hide ReadValue, ReadSeparator;
  }

  lemma MembersStep(s: string, i: nat, done: map<string, Value>, key: string, x: Value, q: nat, r: nat)
    requires i <= |s| && ReadValue(s, i).Got? && ReadValue(s, i).value == Str(key)
    requires ReadColon(s, ReadValue(s, i).next) == Got(true, q)
    requires q <= |s| && ReadValue(s, q) == Got(x, r) && ReadSeparator(s, r, '}').Got?
    ensures var sep := ReadSeparator(s, r, '}');
            ReadMembers(s, i, done) ==
              if sep.value then Got(Obj(done[key := x]), sep.next) else ReadMembers(s, sep.next, done[key := x])
  {
    hide ReadValue, ReadSeparator, ReadColon;
  }

  lemma {:induction false} ItemsReadBack(s: string, i: nat, v: Value, slash: bool, parts: seq<string>, k: nat)
    requires v.Arr? && |parts| == |v.items| && LaidItems(v, slash, parts) && k < |parts|
    requires At(s, i, Commas(parts, |parts|)) && At(s, i + |Commas(parts, |parts|)|, "]")
    ensures i + |Commas(parts, k)| <= |s|
    ensures ReadItems(s, i + |Commas(parts, k)|, v.items[..k]) == Got(v, i + |Commas(parts, |parts|)| + 1)
    decreases v, 0, |parts| - k
  {
    hide ReadItems, ReadValue, ReadSeparator, Commas, LaidPart, Boundary, At;
    PartAt(s, i, parts, k, |parts|);
    SeparatorAt(s, i, parts, k, ']');
    PartReadBack(s, i + |Commas(parts, k)|, v.items[k], slash, parts[k], ']');
    ItemsStep(s, i + |Commas(parts, k)|, v.items[..k]);
    assert v.items[..k] + [v.items[k]] == v.items[..k + 1];
    if k + 1 < |parts| {
      ItemsReadBack(s, i, v, slash, parts, k + 1);
    } else {
      assert v.items[..k + 1] == v.items;
    }
  }

  /** The part of a dictionary with the given keys. */
  function Part(m: map<string, Value>, keys: seq<string>): map<string, Value> {
    map k | k in m && k in keys :: m[k]
  }

  lemma PartMore(m: map<string, Value>, keys: seq<string>, k: nat)
    requires k < |keys| && Lists(keys, m)
    ensures Part(m, keys[..k])[keys[k] := m[keys[k]]] == Part(m, keys[..k + 1])
    ensures k + 1 == |keys| ==> Part(m, keys[..k + 1]) == m
  {
    assert keys[..k + 1] == keys[..k] + [keys[k]];
    assert k + 1 == |keys| ==> keys[..k + 1] == keys;
  }

  lemma Bracketed(s: string, i: nat, a: char, all: string, b: char)
    requires At(s, i, [a] + all + [b])
    ensures i < |s| && s[i] == a && At(s, i + 1, all) && At(s, i + 1 + |all|, [b]) && s[i + 1 + |all|] == b
  {
    assert [a] + all + [b] == [a] + (all + [b]);
    AtConcat(s, i, [a], all + [b]);
    AtChar(s, i, [a]);
    AtConcat(s, i + 1, all, [b]);
    AtChar(s, i + 1 + |all|, [b]);
  }

  lemma ObjectReadBack(s: string, i: nat, v: Value, slash: bool, keys: seq<string>, parts: seq<string>)
    requires v.Obj? && Lists(keys, v.members) && LaidMembers(v, slash, keys, parts)
    requires At(s, i, "{" + Commas(parts, |parts|) + "}")
    ensures ReadValue(s, i) == Got(v, i + |Commas(parts, |parts|)| + 2)
    decreases v, 0, |parts| + 1
  {
    hide ReadValue, ReadMembers, LaidMember, At, Commas, SkipSpace, Lists, Part;
    var all := Commas(parts, |parts|);
    Bracketed(s, i, '{', all, '}');
    Opens(s, i);
    PartNone(v.members, keys);
    NoParts(parts);
    if keys != [] {
      MemberStarts(s, i + 1, parts, v.members[keys[0]], keys[0], slash);
      MembersReadBack(s, i + 1, v, slash, keys, parts, 0);
    }
  }

  lemma MemberStarts(s: string, i: nat, parts: seq<string>, v: Value, key: string, slash: bool)
    requires parts != [] && At(s, i, Commas(parts, |parts|)) && LaidMember(v, key, slash, parts[0])
    ensures i < |s| && s[i] != '}'
  {
    hide LaidPart, Commas, Escape;
    PartAt(s, i, parts, 0, |parts|);
    NoParts(parts);
    var w1, w2, b :| Blank(w1) && Blank(w2) && LaidPart(v, slash, b)
      && parts[0] == w1 + (Quoted(key, slash) + (w2 + (":" + b)));
    AtChar(s, i, parts[0]);
    assert s[i] == parts[0][0] == if w1 == "" then '\"' else w1[0];
  }

  lemma NoParts(parts: seq<string>)
    ensures |Commas(parts, 0)| == 0
  {
  }

  lemma PartNone(m: map<string, Value>, keys: seq<string>)
    requires Lists(keys, m)
    ensures Part(m, keys[..0]) == map[] && (keys == [] ==> m == map[])
  {
  }

  lemma {:induction false} MembersReadBack(s: string, i: nat, v: Value, slash: bool, keys: seq<string>,
                                           parts: seq<string>, k: nat)
    requires v.Obj? && Lists(keys, v.members) && LaidMembers(v, slash, keys, parts) && k < |keys|
    requires At(s, i, Commas(parts, |parts|)) && At(s, i + |Commas(parts, |parts|)|, "}")
    ensures i + |Commas(parts, k)| <= |s|
    ensures ReadMembers(s, i + |Commas(parts, k)|, Part(v.members, keys[..k])) ==
      Got(v, i + |Commas(parts, |parts|)| + 1)
    decreases v, 0, |parts| - k
  {
    hide ReadMembers, ReadValue, ReadSeparator, ReadColon, Commas, LaidMember, Boundary, At, Part;
    var p, m := i + |Commas(parts, k)|, v.members;
    PartAt(s, i, parts, k, |parts|);
    SeparatorAt(s, i, parts, k, '}');
    var q := MemberReadBack(s, p, m[keys[k]], keys[k], slash, parts[k]);
    MembersStep(s, p, Part(m, keys[..k]), keys[k], m[keys[k]], q, ReadValue(s, q).next);
    PartMore(m, keys, k);
    hide Lists;
    if k + 1 < |keys| {
      MembersReadBack(s, i, v, slash, keys, parts, k + 1);
    }
  }

  /** A member: the key, the colon, the value, and then the separator. */
  lemma MemberReadBack(s: string, i: nat, v: Value, key: string, slash: bool, part: string) returns (q: nat)
    requires LaidMember(v, key, slash, part) && At(s, i, part) && Boundary(s, i + |part|)
    ensures ReadValue(s, i).Got? && ReadValue(s, i).value == Str(key)
    ensures ReadColon(s, ReadValue(s, i).next) == Got(true, q) && q <= |s|
    ensures ReadValue(s, q).Got? && ReadValue(s, q).value == v
    ensures ReadSeparator(s, ReadValue(s, q).next, '}') == ReadSeparator(s, i + |part|, '}')
    decreases v, 4
  {
    hide At, Quoted, ReadValue, ReadColon, ReadSeparator, Boundary, LaidPart;
    var w1, w2, b :| Blank(w1) && Blank(w2) && LaidPart(v, slash, b)
      && part == w1 + (Quoted(key, slash) + (w2 + (":" + b)));
    var quoted := Quoted(key, slash);
    AtConcat(s, i, w1, quoted + (w2 + (":" + b)));
    AtConcat(s, i + |w1|, quoted, w2 + (":" + b));
    var c := i + |w1| + |quoted|;
    AtConcat(s, c, w2, ":" + b);
    AtConcat(s, c + |w2|, ":", b);
    BlankSkipped(s, i, w1, '}');
    QuotedReadBack(s, i + |w1|, key, slash);
    BlankSkipped(s, c, w2, '}');
    ColonReadBack(s, c + |w2|);
    q := c + |w2| + 1;
    PartReadBack(s, q, v, slash, b, '}');
  }

  lemma ColonReadBack(s: string, i: nat)
    requires At(s, i, ":")
    ensures ReadColon(s, i) == Got(true, i + 1)
  {
    AtChar(s, i, ":");
    assert s[i] == ":"[0];
    SkipNothing(s, i);
  }

  /** `read(write(v)) == v`, whatever order the dictionaries are listed in. */
  lemma RoundTrip(v: Value, slash: bool, t: string)
    requires Written(v, slash, t)
    ensures ReadValue(t, 0) == Got(v, |t|)
  {
    assert t[0..0 + |t|] == t;
    ReadBack(t, 0, v, slash, t);
  }
}
