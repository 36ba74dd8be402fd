/** Accessor name to property name (`methodToProperty`), the step that turns
    a column reference such as `User::getName` into the field name `name`. */
module PropertyNames {
  import opened Outcomes
  import opened JavaText

  /** The accessor name without its `is`, `get` or `set` prefix; `is` is
      tried first. Any other name is rejected. */
  function StripAccessor(name: string): Result<string>
  {
    if "is" <= name then Ok(name[2..])
    else if "get" <= name || "set" <= name then Ok(name[3..])
    else Err(BadPropertyName)
  }

  /** The JavaBeans rule as the source writes it: the first character is
      lower-cased when the name has exactly one character or its second
      character is not upper case; a name such as `URL` is kept. */
  function Decapitalize(s: string): string
  {
    if |s| == 1 || (|s| > 1 && !IsUpper(s[1])) then [ToLower(s[0])] + s[1..] else s
  }

  /** `methodToProperty(name)`. */
  function MethodToProperty(name: string): Result<string>
  {
    match StripAccessor(name)
    case Err(e) => Err(e)
    case Ok(rest) => Ok(Decapitalize(rest))
  }

  /** The conversion fails exactly for names that start with none of `is`,
      `get` and `set`; otherwise it decapitalizes what follows the prefix,
      `is` taking precedence (`issue` gives `sue`). */
  lemma MethodToPropertyCases(name: string)
    ensures MethodToProperty(name).Err? <==> !("is" <= name || "get" <= name || "set" <= name)
    ensures MethodToProperty(name).Err? ==> MethodToProperty(name).error == BadPropertyName
    ensures "is" <= name ==> MethodToProperty(name) == Ok(Decapitalize(name[2..]))
    ensures !("is" <= name) && ("get" <= name || "set" <= name) ==> MethodToProperty(name) == Ok(Decapitalize(name[3..]))
  {
  }

  /** A rest whose second character is upper case is kept as it is
      (`getURL` gives `URL`); a rest of one character, or whose second
      character is not upper case, has only its first character lower-cased;
      an empty rest stays empty (`get` gives the empty name). */
  lemma DecapitalizeCases(s: string)
    ensures |s| > 1 && IsUpper(s[1]) ==> Decapitalize(s) == s
    ensures s != [] && (|s| == 1 || !IsUpper(s[1])) ==>
      |Decapitalize(s)| == |s| && Decapitalize(s)[0] == ToLower(s[0]) && Decapitalize(s)[1..] == s[1..]
    ensures s == [] ==> Decapitalize(s) == []
  {
  }

  /** A lower-case ASCII letter. */
  predicate IsLower(ch: char)
  {
    'a' <= ch <= 'z'
  }

  /** The accessor name of a property: the prefix, then the property with its
      first character upper-cased. */
  function Accessor(prefix: string, p: string): string
    requires p != []
  {
    prefix + [ToUpper(p[0])] + p[1..]
  }

  /** The round trip: for a property that starts with a lower-case letter
      and whose second character, if any, is not upper case, converting its
      `get`, `set` or `is` accessor name gives the property back. */
  lemma {:induction false} AccessorRoundTrip(prefix: string, p: string)
    requires prefix == "get" || prefix == "set" || prefix == "is"
    requires p != [] && IsLower(p[0]) && (|p| == 1 || !IsUpper(p[1]))
    ensures MethodToProperty(Accessor(prefix, p)) == Ok(p)
  {
    var name := Accessor(prefix, p);
    var rest := [ToUpper(p[0])] + p[1..];
    assert name == prefix + rest;
    assert name[|prefix|..] == rest;
    if prefix != "is" {
      assert name[0] == 'g' || name[0] == 's';
      assert !("is" <= name);
    }
    assert StripAccessor(name) == Ok(rest);
    assert rest[1..] == p[1..];
    assert Decapitalize(rest) == [ToLower(ToUpper(p[0]))] + p[1..];
    assert [p[0]] + p[1..] == p;
  }

  /** The conversion as the source's callers see it, on a few names. */
  lemma MethodToPropertyExamples()
    ensures MethodToProperty("getName") == Ok("name")
    ensures MethodToProperty("isActive") == Ok("active")
    ensures MethodToProperty("getURL") == Ok("URL")
    ensures MethodToProperty("setX") == Ok("x")
    ensures MethodToProperty("get") == Ok("")
    ensures MethodToProperty("fetchName") == Err(BadPropertyName)
  {
    assert "getName"[0] == 'g' && "getName"[3..] == "Name";
    assert ToLower('N') == 'n' && ToLower('A') == 'a' && ToLower('X') == 'x';
    assert "Name"[1..] == "ame" && ['n'] + "ame" == "name";
    assert Decapitalize("Name") == "name";
    assert "isActive"[2..] == "Active";
    assert "Active"[1..] == "ctive" && ['a'] + "ctive" == "active";
    assert Decapitalize("Active") == "active";
    assert "setX"[0] == 's' && Decapitalize("X") == "x";
    assert "getURL"[3..] == "URL";
    assert "setX"[3..] == "X";
    assert "fetchName"[0] == 'f';
  }
}
