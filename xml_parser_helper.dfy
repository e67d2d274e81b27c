/**
 * Attribute access of the `.xopp` loader, `XmlParserHelper::getAttrib<T>` and
 * `XmlParserHelper::getAttribMandatory<T>`.
 *
 * An element's attributes are a map from name to raw value. Reading a value
 * of type `T` runs the stream extraction `stream >> value` on the raw value;
 * that extraction is a parameter here: it either fails, or yields a value and
 * says whether it consumed the whole text (the stream reached its end). The
 * only side effect of both operations is a logged warning, which is returned
 * beside the value.
 */
module XmlParserHelper {

  import opened Chars

  type AttributeMap = map<string, string>

  /** What `stream >> value` left: the value read, and whether the stream is at its end. */
  datatype Parsed<T> = Parsed(value: T, consumedAll: bool)

  /** A stream extraction for type `T`: `None` when the stream's fail bit is set. */
  type Extractor<T> = string -> Option<Parsed<T>>

  /** The warnings `g_warning` logs while reading attributes. */
  datatype Warning =
    | NotEntirelyParsed(name: string)
    | CouldNotParse(name: string, text: string)
    | MandatoryNotFound(name: string, shown: string)

  /** A value read from an attribute map, with the warnings logged on the way. */
  datatype Lookup<T> = Lookup(value: Option<T>, warnings: seq<Warning>)

  /** `Domain`, the place a background file lives: an absolute path, an attachment of the document, or a clone of another page. */
  datatype Domain = ABSOLUTE | ATTACH | CLONE

  function OrElse<T>(o: Option<T>, d: T): T
  {
    if o.Some? then o.value else d
  }

  /**
   * `getAttrib<T>`: the value of attribute `name` read as a `T`. A missing
   * attribute gives nothing and no warning; a value that cannot be read gives
   * nothing and a warning; a value read with characters left over is still
   * returned, with a warning that it was not entirely parsed.
   */
  function GetAttrib<T>(name: string, attributes: AttributeMap, extract: Extractor<T>): (r: Lookup<T>)
    ensures r.value.Some? <==> name in attributes && extract(attributes[name]).Some?
    ensures r.value.Some? ==> r.value.value == extract(attributes[name]).value.value
  {
    if name in attributes then
      match extract(attributes[name])
      case Some(p) =>
        Lookup(Some(p.value), if p.consumedAll then [] else [NotEntirelyParsed(name)])
      case None =>
        Lookup(None, [CouldNotParse(name, attributes[name])])
    else
      Lookup(None, [])
  }

  /** `getAttrib<std::string>`: the raw value itself, which is always read entirely. */
  function StringExtractor(): Extractor<string>
  {
    s => Some(Parsed(s, true))
  }

  /**
   * `getAttribMandatory<T>`: the value `getAttrib` gives, else `default`; in
   * the second case a warning naming the default, shown by `show`, is logged
   * iff `warn` is set. The C++ defaults are `default = T{}` and `warn = true`,
   * spelled out at every call of this model.
   */
  function GetAttribMandatory<T>(name: string, attributes: AttributeMap, extract: Extractor<T>, default: T, warn: bool, show: T -> string): (r: (T, seq<Warning>))
  {
    var l := GetAttrib(name, attributes, extract);
    if l.value.Some? then (l.value.value, l.warnings)
    else (default, l.warnings + if warn then [MandatoryNotFound(name, show(default))] else [])
  }

  /**
   * The warnings of `getAttrib`: at most one, and none exactly when the
   * attribute is absent or its value was read entirely.
   */
  lemma AttribWarnings<T>(name: string, attributes: AttributeMap, extract: Extractor<T>)
    ensures var r := GetAttrib(name, attributes, extract);
            && |r.warnings| <= 1
            && (r.warnings == [] <==> name !in attributes || (extract(attributes[name]).Some? && extract(attributes[name]).value.consumedAll))
  {
  }

  /** A missing attribute is silently absent. */
  lemma AbsentIsSilent<T>(name: string, attributes: AttributeMap, extract: Extractor<T>)
    requires name !in attributes
    ensures GetAttrib(name, attributes, extract) == Lookup(None, [])
  {
  }

  /** A value that cannot be read is absent and logged with its raw text. */
  lemma FailureIsLogged<T>(name: string, attributes: AttributeMap, extract: Extractor<T>)
    requires name in attributes && extract(attributes[name]).None?
    ensures GetAttrib(name, attributes, extract) == Lookup(None, [CouldNotParse(name, attributes[name])])
  {
  }

  /** A value read only in part is still returned, with one warning. */
  lemma PartialIsKept<T>(name: string, attributes: AttributeMap, extract: Extractor<T>)
    requires name in attributes && extract(attributes[name]).Some? && !extract(attributes[name]).value.consumedAll
    ensures GetAttrib(name, attributes, extract) == Lookup(Some(extract(attributes[name]).value.value), [NotEntirelyParsed(name)])
  {
  }

  /**
   * The fallback of `getAttribMandatory`: its value is that of `getAttrib`
   * when there is one and `default` otherwise; its warnings are those of
   * `getAttrib`, followed by one "not found" warning exactly when the default
   * is used and `warn` is set. In particular a missing attribute read with
   * `warn == false` (the stroke's `fill` and `capStyle`) logs nothing.
   */
  lemma MandatoryWarnings<T>(name: string, attributes: AttributeMap, extract: Extractor<T>, default: T, warn: bool, show: T -> string)
    ensures var l := GetAttrib(name, attributes, extract);
            var r := GetAttribMandatory(name, attributes, extract, default, warn, show);
            && r.0 == OrElse(l.value, default)
            && |r.1| <= 2
            && r.1[..|l.warnings|] == l.warnings
            && (|r.1| == |l.warnings| + 1 <==> l.value.None? && warn)
            && (|r.1| > |l.warnings| ==> r.1[|l.warnings|] == MandatoryNotFound(name, show(default)))
  {
    AttribWarnings(name, attributes, extract);
  }

  /** A missing attribute read with `warn == false` gives the default and logs nothing. */
  lemma SilentDefault<T>(name: string, attributes: AttributeMap, extract: Extractor<T>, default: T, show: T -> string)
    requires name !in attributes
    ensures GetAttribMandatory(name, attributes, extract, default, false, show) == (default, [])
  {
    AbsentIsSilent(name, attributes, extract);
    assert GetAttrib(name, attributes, extract).warnings + [] == [];
  }

  /** The string reading is exact: an attribute read as a string is its raw value, with no warning. */
  lemma StringIsVerbatim(name: string, attributes: AttributeMap)
    ensures GetAttrib(name, attributes, StringExtractor()) ==
            if name in attributes then Lookup(Some(attributes[name]), []) else Lookup(None, [])
  {
  }
}
