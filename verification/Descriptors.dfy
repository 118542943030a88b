/** The two parsers of method descriptors, and the words a call moves. */
module Descriptors {
  /** Where reading a descriptor's parameters ends. Lost stands for a read behind the string or through
      a null pointer, which only malformed descriptors cause. */
  datatype Outcome = Parsed(words: nat, params: nat, at: nat) | Rejected | Lost

  // ----- descriptors (section 4.3.3 of The Java Virtual Machine Specification) -----

  datatype FieldType = Base(c: char) | Object(name: string) | Array(element: FieldType)

  predicate ValidType(t: FieldType) {
    match t
    case Base(c) => c in "BCDFIJSZ"
    case Object(name) => ';' !in name
    case Array(e) => ValidType(e)
  }

  function Render(t: FieldType): string {
    match t
    case Base(c) => [c]
    case Object(name) => "L" + name + ";"
    case Array(e) => "[" + Render(e)
  }

  function RenderAll(ts: seq<FieldType>): string {
    if ts == [] then "" else Render(ts[0]) + RenderAll(ts[1..])
  }

  function Descriptor(params: seq<FieldType>, result: string): string {
    "(" + RenderAll(params) + ")" + result
  }

  /** Longs and doubles take two words, everything else one. */
  function Width(t: FieldType): nat {
    if t.Base? && (t.c == 'J' || t.c == 'D') then 2 else 1
  }

  function Words(ts: seq<FieldType>): nat {
    if ts == [] then 0 else Width(ts[0]) + Words(ts[1..])
  }

  // ----- what both parsers read -----

  function At(d: string, i: nat): char
    requires i <= |d|
  {
    if i < |d| then d[i] else '\0'
  }

  function SkipBrackets(d: string, i: nat): (j: nat)
    requires i <= |d|
    ensures i <= j <= |d|
    decreases |d| - i
  {
    if At(d, i) == '[' && i < |d| then SkipBrackets(d, i + 1) else i
  }

  /** Behind the first ';' from `i` on; None if there is none. */
  function AfterSemicolon(d: string, i: nat): (j: int)
    requires i <= |d|
    ensures j == -1 || i < j <= |d|
    decreases |d| - i
  {
    if i == |d| then -1 else if d[i] == ';' then i + 1 else AfterSemicolon(d, i + 1)
  }

  /** The width of the parameter at `i` and the position behind it; width 0 where the parsers give up,
      position -1 where they get lost. */
  function Param(d: string, i: nat): (r: (nat, int))
    requires i < |d| && d[i] != ')'
    ensures r.1 == -1 || i < r.1
  {
    if d[i] == '[' then
      var j := SkipBrackets(d, i + 1);
      if At(d, j) != 'L' then (1, j + 1) else (1, if j < |d| then AfterSemicolon(d, j + 1) else -1)
    else if d[i] == 'L' then (1, AfterSemicolon(d, i + 1))
    else if d[i] in "BCFSZI" then (1, i + 1)
    else if d[i] in "DJ" then (2, i + 1)
    else (0, i + 1)
  }

  function Scan(d: string, i: int): (r: Outcome)
    requires i >= -1
    decreases |d| - i
  {
    if i < 0 || i > |d| then Lost
    else if i == |d| then Rejected
    else if d[i] == ')' then Parsed(0, 0, i + 1)
    else
      var (w, j) := Param(d, i);
      if w == 0 then Rejected
      else if j < 0 then Lost
      else
        match Scan(d, j)
        case Parsed(words, params, at) => Parsed(w + words, 1 + params, at)
        case Rejected => Rejected
        case Lost => Lost
  }

  /** The words a call with this descriptor moves: the parameters, and the receiver unless static. */
  function ArgWords(d: string, isStatic: bool): nat
    requires Scan(d, 1).Parsed?
  {
    Scan(d, 1).words + if isStatic then 0 else 1
  }

  // ----- the parsers -----

  /** The loops over '[' and up to ';' both parsers contain. */
  method SkipArray(d: string, i: nat) returns (j: nat)
    requires i <= |d|
    ensures j == SkipBrackets(d, i)
  {
    j := i;
    while j < |d| && d[j] == '['
      invariant i <= j <= |d| && SkipBrackets(d, i) == SkipBrackets(d, j)
    {
      j := j + 1;
    }
  }

  method FindSemicolon(d: string, i: nat) returns (j: int)
    requires i <= |d|
    ensures j == AfterSemicolon(d, i)
  {
    var k := i;
    while k < |d| && d[k] != ';'
      invariant i <= k <= |d| && AfterSemicolon(d, i) == AfterSemicolon(d, k)
    {
      k := k + 1;
    }
    j := if k < |d| then k + 1 else -1;
  }

  /** `method_get_param_num_size`: parameters and bytes. */
  method GetParamNumSize(d: string) returns (ok: bool, num: nat, size: nat)
    requires |d| > 0 && !Scan(d, 1).Lost?
    ensures ok == Scan(d, 1).Parsed?
    ensures ok ==> num == Scan(d, 1).params && size == 4 * Scan(d, 1).words
  {
    num, size := 0, 0;
    var i: int := 1;
    ghost var all := Scan(d, 1);
    while i < |d| && d[i] != ')'
      invariant 1 <= i <= |d| && !Scan(d, i).Lost?
      invariant all.Parsed? == Scan(d, i).Parsed?
      invariant all.Parsed? ==> num + Scan(d, i).params == all.params && size + 4 * Scan(d, i).words == 4 * all.words
      decreases |d| - i
    {
      var c := d[i];
      if c == '[' {
        var j := SkipArray(d, i + 1);
        if At(d, j) != 'L' {
          i := j + 1;
        } else {
          i := FindSemicolon(d, j + 1);
        }
        size, num := size + 4, num + 1;
      } else if c == 'L' {
        i := FindSemicolon(d, i + 1);
        size, num := size + 4, num + 1;
      } else if c in "BCFSZI" {
        i := i + 1;
        size, num := size + 4, num + 1;
      } else if c in "DJ" {
        i := i + 1;
        size, num := size + 8, num + 1;
      } else {
        return false, 0, 0;
      }
    }
    ok := i < |d|;
  }

  /** `method_descriptor_get_param_info`: words and the first character of the return type. */
  method GetParamInfo(d: string) returns (ok: bool, words: nat, result: char)
    requires |d| > 0 && !Scan(d, 1).Lost?
    ensures ok == Scan(d, 1).Parsed?
    ensures ok ==> words == Scan(d, 1).words && Scan(d, 1).at <= |d| && result == At(d, Scan(d, 1).at)
  {
    words, result := 0, '\0';
    var i: int := 1;
    ghost var all := Scan(d, 1);
    while i < |d| && d[i] != ')'
      invariant 1 <= i <= |d| && !Scan(d, i).Lost?
      invariant all.Parsed? == Scan(d, i).Parsed?
      invariant all.Parsed? ==> words + Scan(d, i).words == all.words && all.at == Scan(d, i).at
      decreases |d| - i
    {
      var c := d[i];
      if c == '[' {
        var j := SkipArray(d, i + 1);
        if At(d, j) != 'L' {
          i := j + 1;
        } else {
          i := FindSemicolon(d, j + 1);
        }
        words := words + 1;
      } else if c == 'L' {
        i := FindSemicolon(d, i + 1);
        words := words + 1;
      } else if c in "BCFSZI" {
        i := i + 1;
        words := words + 1;
      } else if c in "DJ" {
        i := i + 1;
        words := words + 2;
      } else {
        return false, 0, '\0';
      }
    }
    if i == |d| {
      return false, 0, '\0';
    }
    ok, result := true, At(d, i + 1);
  }

  // ----- every descriptor is read right -----

  ghost predicate Occurs(d: string, i: nat, s: string) {
    i + |s| <= |d| && d[i..i + |s|] == s
  }

  lemma OccursSplit(d: string, i: nat, a: string, b: string)
    requires Occurs(d, i, a + b)
    ensures Occurs(d, i, a) && Occurs(d, i + |a|, b)
    ensures a != [] ==> i < |d| && d[i] == a[0]
  {
    var e := i + |a| + |b|;
    assert d[i..i + |a|] == d[i..e][..|a|] && d[i + |a|..e] == d[i..e][|a|..];
    assert a != [] ==> d[i] == d[i..e][0];
  }

  lemma {:induction false} SemicolonAt(d: string, i: nat, name: string)
    requires ';' !in name && Occurs(d, i, name + ";")
    ensures AfterSemicolon(d, i) == i + |name| + 1
    decreases |name|
  {
    if name == [] {
      OccursSplit(d, i, ";", "");
    } else {
      assert name + ";" == [name[0]] + (name[1..] + ";") && name[0] in name;
      OccursSplit(d, i, [name[0]], name[1..] + ";");
      SemicolonAt(d, i + 1, name[1..]);
    }
  }

  lemma ObjectAt(d: string, i: nat, name: string)
    requires ';' !in name && Occurs(d, i, Render(Object(name)))
    ensures i < |d| && d[i] == 'L' && AfterSemicolon(d, i + 1) == i + |Render(Object(name))|
  {
    assert Render(Object(name)) == "L" + (name + ";");
    OccursSplit(d, i, "L", name + ";");
    SemicolonAt(d, i + 1, name);
  }

  /** The element type behind all brackets of an array type. */
  function Inner(t: FieldType): FieldType {
    if t.Array? then Inner(t.element) else t
  }

  lemma {:induction false} BracketsAt(d: string, i: nat, t: FieldType)
    requires ValidType(t) && Occurs(d, i, Render(t))
    ensures var j := SkipBrackets(d, i);
            j + |Render(Inner(t))| == i + |Render(t)| && Occurs(d, j, Render(Inner(t)))
    ensures ValidType(Inner(t)) && !Inner(t).Array?
    decreases t
  {
    if t.Array? {
      OccursSplit(d, i, "[", Render(t.element));
      BracketsAt(d, i + 1, t.element);
    } else {
      Starts(d, i, t);
    }
  }

  lemma Starts(d: string, i: nat, t: FieldType)
    requires ValidType(t) && Occurs(d, i, Render(t))
    ensures i < |d| && d[i] != ')' && (d[i] == '[' <==> t.Array?) && (d[i] == 'L' <==> t.Object?)
    ensures t.Base? ==> d[i] == t.c && d[i] in "BCDFIJSZ" && |Render(t)| == 1
  {
    assert d[i] == d[i..i + |Render(t)|][0];
  }

  lemma ParamRead(d: string, i: nat, t: FieldType)
    requires ValidType(t) && Occurs(d, i, Render(t))
    ensures i < |d| && d[i] != ')' && Param(d, i) == (Width(t), i + |Render(t)|)
  {
    hide Occurs;
    Starts(d, i, t);
    match t {
      case Base(c) =>
      case Object(name) =>
        ObjectAt(d, i, name);
      case Array(element) =>
        OccursSplit(d, i, "[", Render(element));
        BracketsAt(d, i + 1, element);
        Starts(d, SkipBrackets(d, i + 1), Inner(element));
        if Inner(element).Object? {
          ObjectAt(d, SkipBrackets(d, i + 1), Inner(element).name);
        }
    }
  }

  lemma {:induction false} ScanRendered(d: string, i: nat, ts: seq<FieldType>)
    requires forall t :: t in ts ==> ValidType(t)
    requires Occurs(d, i, RenderAll(ts) + ")")
    ensures Scan(d, i) == Parsed(Words(ts), |ts|, i + |RenderAll(ts)| + 1)
    decreases |ts|
  {
    hide Occurs, Param;
    if ts == [] {
      assert RenderAll(ts) + ")" == ")" + "";
      OccursSplit(d, i, ")", "");
    } else {
      assert RenderAll(ts) + ")" == Render(ts[0]) + (RenderAll(ts[1..]) + ")");
      OccursSplit(d, i, Render(ts[0]), RenderAll(ts[1..]) + ")");
      ParamRead(d, i, ts[0]);
      ScanRendered(d, i + |Render(ts[0])|, ts[1..]);
    }
  }

  /** On every descriptor both parsers succeed and see the words of the parameter types, and the second
      one the first character of the return type. */
  lemma DescriptorRead(params: seq<FieldType>, result: string)
    requires (forall t :: t in params ==> ValidType(t)) && result != ""
    ensures var d := Descriptor(params, result);
            && Scan(d, 1) == Parsed(Words(params), |params|, |d| - |result|)
            && At(d, Scan(d, 1).at) == result[0]
  {
    var d := Descriptor(params, result);
    assert Occurs(d, 1, RenderAll(params) + ")");
    ScanRendered(d, 1, params);
  }
}
