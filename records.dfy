/** Plain JavaScript values and objects as the board code sees them.

    Tasks and columns are plain objects: a task is created with the fields
    `id`, `columnId`, `title`, `description`, `createdAt`, `updatedAt` and
    `createdBy`, and later overlaid with arbitrary partial updates, so a record
    is modelled as the map of its own properties rather than as a fixed tuple. */
module Records {

  datatype Option<+T> = None | Some(value: T)

  /** A JavaScript primitive as it can appear in a record field. Numbers are
      integers here (timestamps and counters); `NaN` and fractions are not modelled. */
  datatype Value = Undefined | Null | Bool(b: bool) | Num(n: int) | Str(s: string)

  /** The own properties of a plain object, by name. A property that is present
      with the value `undefined` differs from an absent one: object spread copies it. */
  type Record = map<string, Value>

  /** Property access `r.field`: an absent property reads as `undefined`. */
  function Get(r: Record, field: string): Value
  {
    if field in r then r[field] else Undefined
  }

  /** JavaScript truthiness: `undefined`, `null`, `false`, `0` and `""` are falsy. */
  predicate Truthy(v: Value)
  {
    match v
    case Undefined => false
    case Null => false
    case Bool(b) => b
    case Num(n) => n != 0
    case Str(s) => s != ""
  }

  /** The white space JavaScript trims before reading a string as a number
      (the ASCII part of it: space, tab, line feed, vertical tab, form feed, carriage return). */
  predicate IsSpace(ch: char)
  {
    ch == ' ' || ch == '\t' || ch == '\n' || ch == '\U{B}' || ch == '\U{C}' || ch == '\r'
  }

  function TrimStart(s: string): string
  {
    if s != [] && IsSpace(s[0]) then TrimStart(s[1..]) else s
  }

  function TrimEnd(s: string): string
  {
    if s != [] && IsSpace(s[|s| - 1]) then TrimEnd(s[..|s| - 1]) else s
  }

  predicate AllDigits(s: string)
  {
    forall i | 0 <= i < |s| :: '0' <= s[i] <= '9'
  }

  /** The value of a string of decimal digits. */
  function DigitsValue(s: string): nat
    requires AllDigits(s)
  {
    if s == [] then 0 else 10 * DigitsValue(s[..|s| - 1]) + (s[|s| - 1] as int - '0' as int)
  }

  /** A string read as a number, as unary `-` and `+` do: blank is 0, a signed
      or unsigned run of decimal digits is its value; anything else is `NaN`
      here (`None`). */
  function StringToNumber(s: string): Option<int>
  {
    var t := TrimEnd(TrimStart(s));
    if t == [] then Some(0)
    else if AllDigits(t) then Some(DigitsValue(t))
    else if |t| > 1 && t[0] == '-' && AllDigits(t[1..]) then Some(-(DigitsValue(t[1..]) as int))
    else if |t| > 1 && t[0] == '+' && AllDigits(t[1..]) then Some(DigitsValue(t[1..]))
    else None
  }

  /** The number JavaScript converts a value to for arithmetic such as
      `b - a`: `null` and `false` are 0, `true` is 1, a string is read as
      above, and `undefined` is `NaN` (`None`). */
  function ToNumber(v: Value): (r: Option<int>)
    ensures !v.Str? ==> (r.None? <==> v.Undefined?)
    ensures !v.Str? && !v.Undefined? ==> (r == Some(0) <==> !Truthy(v))
  {
    match v
    case Undefined => None
    case Null => Some(0)
    case Bool(b) => Some(if b then 1 else 0)
    case Num(n) => Some(n)
    case Str(s) => StringToNumber(s)
  }

  predicate AllSpace(s: string)
  {
    forall i | 0 <= i < |s| :: IsSpace(s[i])
  }

  /** Trimming the front skips exactly the leading white space. */
  lemma {:induction false} TrimStartSkips(w: string, t: string)
    requires AllSpace(w) && (t == [] || !IsSpace(t[0]))
    ensures TrimStart(w + t) == t
  {
    if w == [] {
      assert w + t == t;
    } else {
      assert (w + t)[0] == w[0];
      assert (w + t)[1..] == w[1..] + t;
      TrimStartSkips(w[1..], t);
    }
  }

  /** Trimming the back skips exactly the trailing white space. */
  lemma {:induction false} TrimEndSkips(t: string, w: string)
    requires AllSpace(w) && (t == [] || !IsSpace(t[|t| - 1]))
    ensures TrimEnd(t + w) == t
  {
    if w == [] {
      assert t + w == t;
    } else {
      var s := t + w;
      assert s[|s| - 1] == w[|w| - 1];
      assert s[..|s| - 1] == t + w[..|w| - 1];
      TrimEndSkips(t, w[..|w| - 1]);
    }
  }

  /** Text made only of white space reads as 0. */
  lemma BlankTextIsZero(w: string)
    requires AllSpace(w)
    ensures ToNumber(Str(w)) == Some(0)
  {
    TrimStartSkips(w, []);
    assert w + [] == w;
  }

  /** A run of decimal digits with white space on either side reads as its value. */
  lemma DecimalTextConverts(w1: string, d: string, w2: string)
    requires AllSpace(w1) && AllSpace(w2) && d != [] && AllDigits(d)
    ensures ToNumber(Str(w1 + d + w2)) == Some(DigitsValue(d))
  {
    assert !IsSpace(d[0]) && !IsSpace(d[|d| - 1]);
    TrimStartSkips(w1, d + w2);
    assert w1 + d + w2 == w1 + (d + w2);
    TrimEndSkips(d, w2);
  }

  /** The same run behind a `-` reads as its negation, behind a `+` as its value. */
  lemma SignedTextConverts(w1: string, sign: string, d: string, w2: string)
    requires AllSpace(w1) && AllSpace(w2) && d != [] && AllDigits(d)
    requires sign == "-" || sign == "+"
    ensures ToNumber(Str(w1 + sign + d + w2)) ==
      Some(if sign == "-" then -(DigitsValue(d) as int) else DigitsValue(d))
  {
    var t := sign + d;
    assert t[0] == sign[0] && t[|t| - 1] == d[|d| - 1];
    assert !IsSpace(d[|d| - 1]);
    TrimStartSkips(w1, t + w2);
    assert w1 + sign + d + w2 == w1 + (t + w2);
    TrimEndSkips(t, w2);
    assert t[1..] == d;
    assert t[0] == '-' || t[0] == '+';
  }

  /** Blank and decimal strings convert to their value, around white space and with a sign. */
  lemma NumericTextConverts()
    ensures ToNumber(Str(" 42\n")) == Some(42)
    ensures ToNumber(Str("-7")) == Some(-7)
    ensures ToNumber(Str(" ")) == Some(0)
  {
    assert DigitsValue("42") == 42 by {
      assert "42"[..1] == "4";
      assert "4"[..0] == "";
    }
    DecimalTextConverts(" ", "42", "\n");
    assert " " + "42" + "\n" == " 42\n";
    assert DigitsValue("7") == 7 by {
      assert "7"[..0] == "";
    }
    SignedTextConverts("", "-", "7", "");
    assert "" + "-" + "7" + "" == "-7";
    BlankTextIsZero(" ");
  }

  /** Other text converts to `NaN`. */
  lemma OtherTextIsNaN()
    ensures ToNumber(Str("-")) == None
    ensures ToNumber(Str("4 2")) == None
  {
    assert TrimStart("-") == "-" && TrimEnd("-") == "-" && "-"[0] == '-';
    assert TrimStart("4 2") == "4 2" && TrimEnd("4 2") == "4 2";
    assert "4 2"[1] == ' ' && "4 2"[0] == '4';
  }

  /** The column a task belongs to: `task.columnId`. */
  function ColumnOf(task: Record): Value
  {
    Get(task, "columnId")
  }

  /** Object spread `{ ...base, ...updates }`: every property of `updates`
      wins, every other property of `base` is kept. */
  function Overlay(base: Record, updates: Record): (r: Record)
    ensures r.Keys == base.Keys + updates.Keys
    ensures forall f :: Get(r, f) == (if f in updates then updates[f] else Get(base, f))
  {
    base + updates
  }

  /** Overlaying the same updates twice is the same as overlaying them once. */
  lemma OverlayIdempotent(base: Record, updates: Record)
    ensures Overlay(Overlay(base, updates), updates) == Overlay(base, updates)
  {
  }

  /** Every element of `s` occurs once. */
  predicate Distinct<T(==)>(s: seq<T>)
  {
    forall i, j | 0 <= i < j < |s| :: s[i] != s[j]
  }
}
