/** Symbols of the symbol table (`symbolTable/Symbol.java`). */
module Symbols {
  import opened Wrappers

  datatype SymbolKind = Const | Var | Procedure

  /** The name `toString` prints for a kind (the Java enum constant's name). */
  function KindName(k: SymbolKind): string {
    match k
    case Const => "CONST"
    case Var => "VAR"
    case Procedure => "PROCEDURE"
  }

  /** The value of a symbol once the table has finished declaring it.  The
      table keeps this snapshot of the `Symbol` object it built: no code
      changes a symbol after the table has stored it. */
  datatype SymbolEntry = SymbolEntry(name: string, kind: SymbolKind, value: Option<int>,
                                     nestingLevel: int, offset: int)

  /** A symbol under construction: name, kind and value are fixed by the
      constructor, nesting level and offset are filled in by setters. */
  class Symbol {
    const name: string
    const kind: SymbolKind
    const value: Option<int>
    var nestingLevel: int
    var offset: int

    /** The two-argument constructor: no value. */
    constructor (name: string, kind: SymbolKind)
      ensures this.name == name && this.kind == kind && this.value == None
      ensures nestingLevel == 0 && offset == 0
    {
      this.name := name;
      this.kind := kind;
      this.value := None;
      nestingLevel := 0;
      offset := 0;
    }

    /** The three-argument constructor; the Java `Integer` may itself be null. */
    constructor WithValue(name: string, kind: SymbolKind, value: Option<int>)
      ensures this.name == name && this.kind == kind && this.value == value
      ensures nestingLevel == 0 && offset == 0
    {
      this.name := name;
      this.kind := kind;
      this.value := value;
      nestingLevel := 0;
      offset := 0;
    }

    method SetNestingLevel(level: int)
      modifies this
      ensures nestingLevel == level && offset == old(offset)
    {
      nestingLevel := level;
    }

    method SetOffset(off: int)
      modifies this
      ensures offset == off && nestingLevel == old(nestingLevel)
    {
      offset := off;
    }

    function GetNestingLevel(): int reads this { nestingLevel }
    function GetOffset(): int reads this { offset }
    function GetName(): string { name }
    function GetKind(): SymbolKind { kind }
    function GetValue(): Option<int> { value }

    function ToString(): string { Describe(name, kind, value) }

    /** The value the table stores. */
    function Snapshot(): (e: SymbolEntry)
      reads this
      ensures e.name == name && e.kind == kind && e.value == value
      ensures e.nestingLevel == nestingLevel && e.offset == offset
    {
      SymbolEntry(name, kind, value, nestingLevel, offset)
    }
  }

  /** Decimal text of an integer, with a leading `-` when negative (`%d`). */
  function IntToString(n: int): (s: string)
    decreases if n < 0 then 1 - n else n
  {
    if n < 0 then "-" + IntToString(-n)
    else if n < 10 then [DigitChar(n)]
    else IntToString(n / 10) + [DigitChar(n % 10)]
  }

  function DigitChar(d: int): char
    requires 0 <= d < 10
  {
    "0123456789"[d]
  }

  /** `toString`: `name (KIND, value=v)` when there is a value, `name (KIND)` otherwise. */
  function Describe(name: string, kind: SymbolKind, value: Option<int>): string {
    match value
    case Some(v) => name + " (" + KindName(kind) + ", value=" + IntToString(v) + ")"
    case None => name + " (" + KindName(kind) + ")"
  }

  /** `t` occurs in `s` starting at index `i`. */
  ghost predicate ContainsAt(s: string, t: string, i: int) {
    0 <= i && i + |t| <= |s| && forall k :: 0 <= k < |t| ==> s[i + k] == t[k]
  }

  ghost predicate Contains(s: string, t: string) {
    exists i :: ContainsAt(s, t, i)
  }

  lemma {:induction false} NoEqualsInNumber(n: int)
    ensures '=' !in IntToString(n)
    decreases if n < 0 then 1 - n else n
  {
    if n < 0 {
      NoEqualsInNumber(-n);
    } else if n >= 10 {
      NoEqualsInNumber(n / 10);
    }
  }

  /** Every occurrence of `value=` contributes an `=` to the text. */
  lemma OccurrenceHasEquals(s: string, i: int)
    requires ContainsAt(s, "value=", i)
    ensures '=' in s
  {
    assert s[i + 5] == "value="[5];
  }

  /** A text without `=` cannot contain `value=`. */
  lemma NoValueWithoutEquals(s: string)
    requires '=' !in s
    ensures !Contains(s, "value=")
  {
    forall i ensures !ContainsAt(s, "value=", i) {
      if ContainsAt(s, "value=", i) {
        OccurrenceHasEquals(s, i);
      }
    }
  }

  /** The description mentions `value=` exactly when the symbol has a value,
      for every name that is a PL/0 identifier (which never holds `=`). */
  lemma DescribeMentionsValue(name: string, kind: SymbolKind, value: Option<int>)
    requires '=' !in name
    ensures Contains(Describe(name, kind, value), "value=") <==> value.Some?
  {
    var s := Describe(name, kind, value);
    match value
    case Some(v) =>
      var i := |name| + 2 + |KindName(kind)| + 2;
      assert s == (name + " (" + KindName(kind) + ", ") + "value=" + (IntToString(v) + ")");
      assert ContainsAt(s, "value=", i);
    case None =>
      assert '=' !in KindName(kind);
      assert s == name + " (" + KindName(kind) + ")";
      NoValueWithoutEquals(s);
  }

}
