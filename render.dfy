/** fillInValue: turns one bound value into the text that stands in for its
    slot in the logged query (type resolution, truncation, quoting). */
module Render {
  import opened Strings

  /** The PDO parameter type a binding may carry: PDO::PARAM_INT,
      PDO::PARAM_STR, or any other PDO type code. */
  datatype Tag = ParamInt | ParamStr | ParamOther

  /** A scalar bound value: the textual form of a PHP scalar, or PHP null. */
  datatype Scalar = Text(text: string) | Null

  /** A binding's value: a bare scalar, or a two-element array
      [value, PDO type] whose first element is the value and whose last
      element is the type. */
  datatype Value = Bare(scalar: Scalar) | Typed(scalar: Scalar, tag: Tag)

  /** What the renderer reads from the logger on every call: the maximum
      length of a rendered value ($strLen), the string-only flag
      ($flagUseStringOnlyBinding) and AQueryWriter::canBeTreatedAsInt, an
      external test whose definition is not part of this model. */
  datatype Settings = Settings(strLen: nat, stringOnly: bool, canBeTreatedAsInt: string -> bool)

  /** The value's text once PHP null has been replaced by the word NULL. */
  function ValueText(v: Value): string {
    match v.scalar
    case Null => "NULL"
    case Text(t) => t
  }

  /** The type under which the value is rendered; never a type other than
      PARAM_INT or PARAM_STR. */
  function ResolveType(v: Value, settings: Settings): (t: Tag)
    ensures t != ParamOther
    ensures settings.stringOnly ==> t == ParamStr
    ensures !settings.stringOnly && v.Typed? && v.tag != ParamOther ==> t == v.tag
    ensures t == ParamInt <==>
              !settings.stringOnly
              && (if v.Typed? && v.tag != ParamOther then v.tag == ParamInt
                  else settings.canBeTreatedAsInt(ValueText(v)) || ValueText(v) == "NULL")
  {
    var paramType := if settings.stringOnly then ParamStr else if v.Typed? then v.tag else ParamOther;
    match paramType
    case ParamOther =>
      if settings.canBeTreatedAsInt(ValueText(v)) || ValueText(v) == "NULL" then ParamInt else ParamStr
    case _ => paramType
  }

  /** Cuts a text longer than n bytes down to its first n bytes, followed
      by the marker "... ". Each char stands for one byte, as strlen and
      substr count them. */
  function Truncate(t: string, n: nat): (r: string)
    ensures |t| <= n ==> r == t
    ensures |t| > n ==> |r| == n + 4 && r[..n] == t[..n] && r[n..] == "... "
  {
    if |t| > n then t[..n] + "... " else t
  }

  /** fillInValue: the rendered text of one binding. */
  function FillInValue(v: Value, settings: Settings): (r: string)
    ensures |r| <= settings.strLen + 6
    ensures ResolveType(v, settings) == ParamStr ==>
              |r| >= 2 && r[0] == '\'' && r[|r| - 1] == '\''
              && r[1..|r| - 1] == Truncate(ValueText(v), settings.strLen)
    ensures ResolveType(v, settings) == ParamInt ==> r == Truncate(ValueText(v), settings.strLen)
  {
    var body := Truncate(ValueText(v), settings.strLen);
    if ResolveType(v, settings) == ParamStr then "'" + body + "'" else body
  }

  /** Removes the quotes FillInValue adds to a PARAM_STR value. */
  function Unquote(r: string, t: Tag): string {
    if t == ParamStr && |r| >= 2 then r[1..|r| - 1] else r
  }

  /** A value no longer than the length limit is rendered without loss: its
      text is recovered by removing the quotes its type calls for. */
  lemma FillInValueLossless(v: Value, settings: Settings)
    requires |ValueText(v)| <= settings.strLen
    ensures Unquote(FillInValue(v, settings), ResolveType(v, settings)) == ValueText(v)
  {
  }

  /** A longer value keeps exactly its first strLen bytes, followed by
      the marker, inside the quotes its type calls for. */
  lemma FillInValueTruncated(v: Value, settings: Settings)
    requires |ValueText(v)| > settings.strLen
    ensures var body := Unquote(FillInValue(v, settings), ResolveType(v, settings));
            body == ValueText(v)[..settings.strLen] + "... "
  {
    var t := ValueText(v);
    var n := settings.strLen;
    assert Truncate(t, n) == Truncate(t, n)[..n] + Truncate(t, n)[n..];
  }

  /** PHP null is rendered as the word NULL: unquoted unless the string-only
      flag or an explicit PARAM_STR type is set, in which case it is quoted;
      it goes through truncation like any other text. */
  lemma NullRendering(v: Value, settings: Settings)
    requires v.scalar == Null
    ensures var quoted := settings.stringOnly || (v.Typed? && v.tag == ParamStr);
            FillInValue(v, settings)
              == if quoted then "'" + Truncate("NULL", settings.strLen) + "'"
                 else Truncate("NULL", settings.strLen)
  {
    var r := FillInValue(v, settings);
    var body := Truncate("NULL", settings.strLen);
    if ResolveType(v, settings) == ParamStr {
      assert r == [r[0]] + r[1..|r| - 1] + [r[|r| - 1]];
    }
  }

  /** How the usual values come out: an integer-like text is bare, other
      text is quoted, the string-only flag quotes everything, and a long
      text is cut after strLen bytes. */
  lemma RenderingExamples(canBeTreatedAsInt: string -> bool)
    requires canBeTreatedAsInt("42") && !canBeTreatedAsInt("abc") && !canBeTreatedAsInt("abcdefgh")
    ensures FillInValue(Bare(Text("42")), Settings(40, false, canBeTreatedAsInt)) == "42"
    ensures FillInValue(Bare(Text("abc")), Settings(40, false, canBeTreatedAsInt)) == "'abc'"
    ensures FillInValue(Bare(Text("42")), Settings(40, true, canBeTreatedAsInt)) == "'42'"
    ensures FillInValue(Bare(Text("abcdefgh")), Settings(5, false, canBeTreatedAsInt)) == "'abcde... '"
    ensures FillInValue(Bare(Null), Settings(40, false, canBeTreatedAsInt)) == "NULL"
    ensures FillInValue(Bare(Null), Settings(2, false, canBeTreatedAsInt)) == "NU... "
  {
  }
}
