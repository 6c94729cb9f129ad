/** The component compiler (lib/curly/component_compiler.rb): checks a
    component against the presenter method it names and emits the Ruby call
    `presenter.name(identifier, key: value, ...)`.

    The presenter class is reduced to what the compiler asks of it: whether
    a component is available and the parameter list of the method. Ruby's
    `inspect`, which renders an identifier or attribute value as a Ruby
    literal, is the parameter `lit`. */
module ComponentCompiler {
  import opened Wrappers
  import opened Strings
  import opened OrderedMaps
  import Parser

  /** The types `Method#parameters` reports. */
  datatype ParamKind = Req | Opt | Rest | KeyReq | Key | KeyRest | BlockParam

  type Param = (ParamKind, string)

  /** `presenter_class.component_available?(name)` and
      `presenter_class.instance_method(name).parameters`. */
  datatype Presenter = Presenter(componentAvailable: string -> bool, parameters: string -> seq<Param>)

  /** `Curly::InvalidComponent` and the `Curly::Error`s of the compiler. */
  datatype CompileError =
    | InvalidComponent(name: string)
    | AttributeNotAllowed(name: string, key: string)
    | MissingAttribute(name: string, key: string)
    | IdentifierRequired(name: string)
    | InvalidSignature(name: string)
    | IdentifierNotAllowed(name: string)

  function ErrorMessage(e: CompileError): string
  {
    match e
    case InvalidComponent(name) => name
    case AttributeNotAllowed(name, key) => "`" + name + "` does not allow attribute `" + key + "`"
    case MissingAttribute(name, key) => "`" + name + "` is missing the required attribute `" + key + "`"
    case IdentifierRequired(name) => "`" + name + "` requires an identifier"
    case InvalidSignature(name) => "`" + name + "` is not a valid component method"
    case IdentifierNotAllowed(name) => "`" + name + "` does not take an identifier"
  }

  /** `param_types` */
  function ParamTypes(params: seq<Param>): (r: seq<ParamKind>)
    ensures |r| == |params| && forall i :: 0 <= i < |params| ==> r[i] == params[i].0
  {
    seq(|params|, i requires 0 <= i < |params| => params[i].0)
  }

  /** `required_identifier?` */
  predicate RequiredIdentifier(params: seq<Param>)
  {
    Req in ParamTypes(params)
  }

  /** `optional_identifier?` */
  predicate OptionalIdentifier(params: seq<Param>)
  {
    Opt in ParamTypes(params)
  }

  /** The `:req` and `:opt` entries of `param_types`. */
  function Positional(types: seq<ParamKind>): (r: seq<ParamKind>)
    ensures |r| <= |types|
    ensures forall t :: t in r <==> t in types && (t == Req || t == Opt)
  {
    if types == [] then []
    else (if types[0] == Req || types[0] == Opt then [types[0]] else []) + Positional(types[1..])
  }

  /** `invalid_signature?`: more than one positional parameter. */
  predicate IsInvalidSignature(params: seq<Param>)
  {
    |Positional(ParamTypes(params))| > 1
  }

  /** The names of the parameters of the given kinds, in order. */
  function NamesOf(params: seq<Param>, kinds: set<ParamKind>): (r: seq<string>)
    ensures forall k :: k in r <==> exists t :: t in kinds && (t, k) in params
  {
    if params == [] then []
    else
      var rest := NamesOf(params[1..], kinds);
      assert forall p :: p in params <==> p == params[0] || p in params[1..];
      (if params[0].0 in kinds then [params[0].1] else []) + rest
  }

  /** `attribute_names`: the `:key` and `:keyreq` parameters. */
  function AttributeNames(params: seq<Param>): (r: seq<string>)
    ensures forall k :: k in r <==> (Key, k) in params || (KeyReq, k) in params
  {
    NamesOf(params, {Key, KeyReq})
  }

  /** `required_attribute_names`: the `:keyreq` parameters. */
  function RequiredAttributeNames(params: seq<Param>): (r: seq<string>)
    ensures forall k :: k in r <==> (KeyReq, k) in params
  {
    NamesOf(params, {KeyReq})
  }

  /** The first of `xs` that is not in `within`. */
  function FirstMissing(xs: seq<string>, within: seq<string>): (r: Option<string>)
    ensures r.None? <==> forall x :: x in xs ==> x in within
    ensures r.Some? ==> r.value !in within
    ensures r.Some? ==> exists i :: (0 <= i < |xs| && xs[i] == r.value
      && forall j :: 0 <= j < i ==> xs[j] in within)
  {
    if xs == [] then None
    else if xs[0] !in within then Some(xs[0])
    else
      var rest := FirstMissing(xs[1..], within);
      assert forall x :: x in xs <==> x == xs[0] || x in xs[1..];
      if rest.Some? then
        var i :| 0 <= i < |xs[1..]| && xs[1..][i] == rest.value && rest.value !in within
          && forall j :: 0 <= j < i ==> xs[1..][j] in within;
        assert xs[i + 1] == rest.value;
        rest
      else rest
  }

  /** `validate_attributes!`: every attribute must be a keyword parameter,
      then every required keyword parameter must be given. */
  function AttributeError(name: string, attributes: OrderedMap, params: seq<Param>): Option<CompileError>
  {
    match FirstMissing(Keys(attributes), AttributeNames(params))
    case Some(key) => Some(AttributeNotAllowed(name, key))
    case None =>
      match FirstMissing(RequiredAttributeNames(params), Keys(attributes))
      case Some(key) => Some(MissingAttribute(name, key))
      case None => None
  }

  /** What `append_positional_argument` appends, or raises. */
  function PositionalArgument(name: string, identifier: Option<string>, params: seq<Param>, lit: string -> string): Result<string, CompileError>
  {
    if RequiredIdentifier(params) then
      if identifier.None? then Failure(IdentifierRequired(name)) else Success(lit(identifier.value))
    else if OptionalIdentifier(params) then
      Success(if identifier.Some? then lit(identifier.value) else "")
    else if IsInvalidSignature(params) then
      Failure(InvalidSignature(name))
    else if identifier.Some? then
      Failure(IdentifierNotAllowed(name))
    else
      Success("")
  }

  /** The `name: value` arguments, in attribute order. */
  function KeywordArguments(attributes: OrderedMap, lit: string -> string): (r: seq<string>)
    ensures |r| == |attributes|
  {
    seq(|attributes|, i requires 0 <= i < |attributes| => attributes[i].0 + ": " + lit(attributes[i].1))
  }

  /** `keyword_argument_string` */
  function KeywordArgumentString(attributes: OrderedMap, lit: string -> string): (r: string)
    ensures r == [] <==> attributes == []
  {
    var parts := KeywordArguments(attributes, lit);
    if parts == [] then [] else
      assert parts[0] == attributes[0].0 + ": " + lit(attributes[0].1);
      Join(parts, ", ")
  }

  /** What `append_keyword_arguments` appends. */
  function KeywordPart(identifier: Option<string>, keywords: string): string
  {
    if keywords == [] then "" else (if identifier.Some? then ", " else "") + keywords
  }

  /** `ComponentCompiler.compile(presenter_class, component)` */
  function CompileComponent(presenter: Presenter, c: Parser.Component, lit: string -> string): Result<string, CompileError>
  {
    var params := presenter.parameters(c.name);
    if !presenter.componentAvailable(c.name) then Failure(InvalidComponent(c.name))
    else if AttributeError(c.name, c.attributes, params).Some? then Failure(AttributeError(c.name, c.attributes, params).value)
    else
      match PositionalArgument(c.name, c.identifier, params, lit)
      case Failure(e) => Failure(e)
      case Success(positional) =>
        Success("presenter." + c.name + "(" + positional + KeywordPart(c.identifier, KeywordArgumentString(c.attributes, lit)) + ")")
  }

  class ComponentCompiler {
    const presenter: Presenter
    const component: Parser.Component
    const lit: string -> string

    constructor (presenter: Presenter, component: Parser.Component, lit: string -> string)
      ensures this.presenter == presenter && this.component == component && this.lit == lit
    {
      this.presenter := presenter;
      this.component := component;
      this.lit := lit;
    }

    function Params(): seq<Param>
      reads this
    {
      presenter.parameters(component.name)
    }

    method Compile() returns (r: Result<string, CompileError>)
      ensures r == CompileComponent(presenter, component, lit)
    {
      var name := component.name;
      if !presenter.componentAvailable(name) {
        return Failure(InvalidComponent(name));
      }
      var invalid := ValidateAttributes();
      if invalid.Some? {
        return Failure(invalid.value);
      }
      var code := "presenter." + name + "(";
      var positional := AppendPositionalArgument(code);
      if positional.Failure? {
        return Failure(positional.error);
      }
      code := AppendKeywordArguments(positional.value);
      code := code + ")";
      r := Success(code);
    }

    /** `validate_attributes!` */
    method ValidateAttributes() returns (error: Option<CompileError>)
      ensures error == AttributeError(component.name, component.attributes, Params())
    {
      var keys := Keys(component.attributes);
      var names := AttributeNames(Params());
      for i := 0 to |keys|
        invariant forall j :: 0 <= j < i ==> keys[j] in names
      {
        if keys[i] !in names {
          FirstMissingAt(keys, names, i);
          return Some(AttributeNotAllowed(component.name, keys[i]));
        }
      }
      var required := RequiredAttributeNames(Params());
      for i := 0 to |required|
        invariant forall j :: 0 <= j < i ==> required[j] in keys
      {
        if required[i] !in keys {
          FirstMissingAt(required, keys, i);
          return Some(MissingAttribute(component.name, required[i]));
        }
      }
      error := None;
    }

    /** `append_positional_argument(code)`: the code with the identifier
        literal appended, or the error raised. */
    method AppendPositionalArgument(code: string) returns (r: Result<string, CompileError>)
      ensures r == match PositionalArgument(component.name, component.identifier, Params(), lit)
        case Success(p) => Success(code + p)
        case Failure(e) => Failure(e)
    {
      var argument := component.identifier;
      var params := Params();
      if RequiredIdentifier(params) {
        if argument.None? {
          return Failure(IdentifierRequired(component.name));
        }
        r := Success(code + lit(argument.value));
      } else if OptionalIdentifier(params) {
        if argument.Some? {
          r := Success(code + lit(argument.value));
        } else {
          assert code + "" == code;
          r := Success(code);
        }
      } else if IsInvalidSignature(params) {
        r := Failure(InvalidSignature(component.name));
      } else if argument.Some? {
        r := Failure(IdentifierNotAllowed(component.name));
      } else {
        assert code + "" == code;
        r := Success(code);
      }
    }

    /** `append_keyword_arguments(code)` */
    method AppendKeywordArguments(code: string) returns (r: string)
      ensures r == code + KeywordPart(component.identifier, KeywordArgumentString(component.attributes, lit))
    {
      var keywords := KeywordArgumentString(component.attributes, lit);
      r := code;
      if keywords != [] {
        if component.identifier.Some? {
          r := r + ", ";
        }
        r := r + keywords;
      } else {
        assert code + "" == code;
      }
    }
  }

  /** The first element of `xs` outside `within` is the one at `i` when all
      before it are inside. */
  lemma FirstMissingAt(xs: seq<string>, within: seq<string>, i: nat)
    requires i < |xs| && xs[i] !in within
    requires forall j :: 0 <= j < i ==> xs[j] in within
    ensures FirstMissing(xs, within) == Some(xs[i])
  {
    var r := FirstMissing(xs, within);
    var k :| 0 <= k < |xs| && xs[k] == r.value && r.value !in within
      && forall j :: 0 <= j < k ==> xs[j] in within;
    assert k == i;
  }

  /** `Curly::ComponentCompiler.compile(presenter_class, component)` */
  method Compile(presenter: Presenter, component: Parser.Component, lit: string -> string) returns (r: Result<string, CompileError>)
    ensures r == CompileComponent(presenter, component, lit)
  {
    var compiler := new ComponentCompiler(presenter, component, lit);
    r := compiler.Compile();
  }

  /** The same compiler with the signature check made before the identifier
      checks, so that a method with more than one positional parameter is
      rejected whatever the identifier. */
  function PositionalArgumentChecked(name: string, identifier: Option<string>, params: seq<Param>, lit: string -> string): Result<string, CompileError>
  {
    if IsInvalidSignature(params) then Failure(InvalidSignature(name))
    else PositionalArgument(name, identifier, params, lit)
  }

  function CompileComponentChecked(presenter: Presenter, c: Parser.Component, lit: string -> string): Result<string, CompileError>
  {
    var params := presenter.parameters(c.name);
    if !presenter.componentAvailable(c.name) then Failure(InvalidComponent(c.name))
    else if AttributeError(c.name, c.attributes, params).Some? then Failure(AttributeError(c.name, c.attributes, params).value)
    else
      match PositionalArgumentChecked(c.name, c.identifier, params, lit)
      case Failure(e) => Failure(e)
      case Success(positional) =>
        Success("presenter." + c.name + "(" + positional + KeywordPart(c.identifier, KeywordArgumentString(c.attributes, lit)) + ")")
  }
}

/** What the component compiler promises. */
module ComponentCompilerFacts {
  import opened Wrappers
  import opened Strings
  import opened OrderedMaps
  import Parser
  import opened ComponentCompiler

  /** The attributes pass validation exactly when each is a keyword
      parameter of the method and each required keyword parameter is among
      them. */
  lemma AttributesAccepted(name: string, attributes: OrderedMap, params: seq<Param>)
    ensures AttributeError(name, attributes, params).None? <==>
      (forall k :: k in Keys(attributes) ==> (Key, k) in params || (KeyReq, k) in params)
      && (forall k :: (KeyReq, k) in params ==> k in Keys(attributes))
  {
  }

  /** Two positional parameters always include a `:req` or an `:opt` one,
      so the identifier branches are taken before `invalid_signature?` is
      asked. */
  lemma InvalidSignatureShadowed(params: seq<Param>)
    ensures IsInvalidSignature(params) ==> RequiredIdentifier(params) || OptionalIdentifier(params)
  {
    var positional := Positional(ParamTypes(params));
    if |positional| > 1 {
      assert positional[0] in positional;
    }
  }

  /** The compiler never reports an invalid signature. */
  lemma NeverInvalidSignature(presenter: Presenter, c: Parser.Component, lit: string -> string)
    ensures CompileComponent(presenter, c, lit) != Failure(InvalidSignature(c.name))
  {
    InvalidSignatureShadowed(presenter.parameters(c.name));
  }

  /** A component compiles exactly when it is available, its attributes
      are accepted, it has an identifier if the method requires one and has
      none if the method takes no positional argument. */
  lemma CompileSucceeds(presenter: Presenter, c: Parser.Component, lit: string -> string)
    ensures var params := presenter.parameters(c.name);
      CompileComponent(presenter, c, lit).Success? <==>
        presenter.componentAvailable(c.name)
        && AttributeError(c.name, c.attributes, params).None?
        && (RequiredIdentifier(params) ==> c.identifier.Some?)
        && (!RequiredIdentifier(params) && !OptionalIdentifier(params) ==> c.identifier.None?)
  {
    InvalidSignatureShadowed(presenter.parameters(c.name));
  }

  /** The arguments of the emitted call: the identifier literal if there
      is an identifier, then `name: value` for each attribute in order. */
  function Arguments(c: Parser.Component, lit: string -> string): seq<string>
  {
    (if c.identifier.Some? then [lit(c.identifier.value)] else []) + KeywordArguments(c.attributes, lit)
  }

  /** A compiled component is the call of the presenter method with its
      arguments separated by ", ". */
  lemma CompiledCall(presenter: Presenter, c: Parser.Component, lit: string -> string)
    requires CompileComponent(presenter, c, lit).Success?
    ensures CompileComponent(presenter, c, lit).value == "presenter." + c.name + "(" + Join(Arguments(c, lit), ", ") + ")"
  {
    var params := presenter.parameters(c.name);
    var positional := PositionalArgument(c.name, c.identifier, params, lit).value;
    var parts := KeywordArguments(c.attributes, lit);
    var keywords := KeywordArgumentString(c.attributes, lit);
    assert keywords == Join(parts, ", ");
    if c.identifier.Some? {
      assert positional == lit(c.identifier.value);
      JoinCons(lit(c.identifier.value), parts, ", ");
    } else {
      InvalidSignatureShadowed(params);
      assert positional == "";
      assert [] + parts == parts;
    }
  }

  lemma JoinCons(head: string, tail: seq<string>, sep: string)
    ensures Join([head] + tail, sep) == head + (if tail == [] then "" else sep + Join(tail, sep))
  {
    assert ([head] + tail)[1..] == tail;
  }

  // ---------------------------------------------------------------------
  // A method with two positional parameters

  /** As written: a method with two required parameters compiles when an
      identifier is given, to a call with one argument. */
  lemma TwoPositionalCompiles(presenter: Presenter, lit: string -> string)
    requires presenter.componentAvailable("invalid")
    requires presenter.parameters("invalid") == [(Req, "x"), (Req, "y")]
    ensures IsInvalidSignature(presenter.parameters("invalid"))
    ensures CompileComponent(presenter, Parser.Component("invalid", Some("a"), []), lit)
      == Success("presenter." + "invalid" + "(" + lit("a") + ")")
  {
    var params := [(Req, "x"), (Req, "y")];
    var c := Parser.Component("invalid", Some("a"), []);
    assert ParamTypes(params) == [Req, Req];
    assert [Req, Req][1..] == [Req] && [Req][1..] == [];
    assert Positional([Req, Req]) == [Req, Req];
    assert ParamTypes(params)[0] == Req;
    NoRequiredAttributes(params);
    AttributesAccepted(c.name, c.attributes, params);
    CompileSucceeds(presenter, c, lit);
    CompiledCall(presenter, c, lit);
    assert KeywordArguments(c.attributes, lit) == [];
    assert Arguments(c, lit) == [lit("a")];
    assert Join(Arguments(c, lit), ", ") == lit("a");
    assert CompileComponent(presenter, c, lit).value == "presenter." + "invalid" + "(" + lit("a") + ")";
  }

  lemma NoRequiredAttributes(params: seq<Param>)
    requires forall k :: (KeyReq, k) !in params
    ensures RequiredAttributeNames(params) == []
  {
    NoNames(params, {KeyReq});
  }

  lemma {:induction false} NoNames(params: seq<Param>, kinds: set<ParamKind>)
    requires forall k :: (KeyReq, k) !in params
    requires kinds == {KeyReq}
    ensures NamesOf(params, kinds) == []
  {
    if params != [] {
      assert params[0] == (KeyReq, params[0].1) || params[0].0 != KeyReq;
      NoNames(params[1..], kinds);
    }
  }

  /** The corrected compiler accepts no method with more than one
      positional parameter. */
  lemma CheckedRejectsInvalidSignature(presenter: Presenter, c: Parser.Component, lit: string -> string)
    ensures CompileComponentChecked(presenter, c, lit).Success? ==> !IsInvalidSignature(presenter.parameters(c.name))
    ensures presenter.componentAvailable(c.name)
      && AttributeError(c.name, c.attributes, presenter.parameters(c.name)).None?
      && IsInvalidSignature(presenter.parameters(c.name))
      ==> CompileComponentChecked(presenter, c, lit) == Failure(InvalidSignature(c.name))
  {
  }

  /** and agrees with the compiler as written on every other method. */
  lemma CheckedAgrees(presenter: Presenter, c: Parser.Component, lit: string -> string)
    requires !IsInvalidSignature(presenter.parameters(c.name))
    ensures CompileComponentChecked(presenter, c, lit) == CompileComponent(presenter, c, lit)
  {
  }

  // ---------------------------------------------------------------------
  // Examples

  /** `i18n(key, fallback: nil)` with identifier `hello` and attribute
      `fallback=yolo`. */
  lemma IdentifierAndAttribute(presenter: Presenter, lit: string -> string)
    requires presenter.componentAvailable("i18n")
    requires presenter.parameters("i18n") == [(Req, "key"), (Key, "fallback")]
    ensures CompileComponent(presenter, Parser.Component("i18n", Some("hello"), [("fallback", "yolo")]), lit)
      == Success("presenter." + "i18n" + "(" + (lit("hello") + ", " + ("fallback: " + lit("yolo"))) + ")")
  {
    var c := Parser.Component("i18n", Some("hello"), [("fallback", "yolo")]);
    I18nAccepted(presenter, c, lit);
    CompiledCall(presenter, c, lit);
    I18nArguments(c, lit);
  }

  lemma I18nAccepted(presenter: Presenter, c: Parser.Component, lit: string -> string)
    requires c == Parser.Component("i18n", Some("hello"), [("fallback", "yolo")])
    requires presenter.componentAvailable("i18n")
    requires presenter.parameters("i18n") == [(Req, "key"), (Key, "fallback")]
    ensures CompileComponent(presenter, c, lit).Success?
  {
    var params := [(Req, "key"), (Key, "fallback")];
    assert Keys(c.attributes) == ["fallback"];
    NoRequiredAttributes(params);
    AttributesAccepted(c.name, c.attributes, params);
    assert ParamTypes(params)[0] == Req;
    CompileSucceeds(presenter, c, lit);
  }

  lemma I18nArguments(c: Parser.Component, lit: string -> string)
    requires c == Parser.Component("i18n", Some("hello"), [("fallback", "yolo")])
    ensures Join(Arguments(c, lit), ", ") == lit("hello") + ", " + ("fallback: " + lit("yolo"))
  {
    var keyword := "fallback: " + lit("yolo");
    assert KeywordArguments(c.attributes, lit)[0] == keyword;
    assert KeywordArguments(c.attributes, lit) == [keyword];
    assert Arguments(c, lit) == [lit("hello")] + [keyword];
    JoinCons(lit("hello"), [keyword], ", ");
  }

  /** `widget(size:, color: nil)` without attributes misses `size`. */
  lemma MissingRequiredAttribute(presenter: Presenter, lit: string -> string)
    requires presenter.componentAvailable("widget")
    requires presenter.parameters("widget") == [(KeyReq, "size"), (Key, "color")]
    ensures CompileComponent(presenter, Parser.Component("widget", None, []), lit)
      == Failure(MissingAttribute("widget", "size"))
  {
    var params := [(KeyReq, "size"), (Key, "color")];
    assert Keys([]) == [];
    assert params[1..] == [(Key, "color")] && params[1..][1..] == [];
    assert RequiredAttributeNames(params) == ["size"];
  }

  /** `title` takes no identifier. */
  lemma IdentifierNotTaken(presenter: Presenter, lit: string -> string)
    requires presenter.componentAvailable("title")
    requires presenter.parameters("title") == []
    ensures CompileComponent(presenter, Parser.Component("title", Some("rugby"), []), lit)
      == Failure(IdentifierNotAllowed("title"))
  {
    assert Keys([]) == [];
  }
}
