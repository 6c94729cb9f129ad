/** The reference compiler (lib/curly/reference_compiler.rb): checks a
    reference against the presenter method it names and emits the Ruby
    expression that calls it, with the argument when the method takes one.

    The presenter class is reduced to what the compiler asks of it: whether
    a method is available and its arity. The argument is whatever the
    reference parser produced; Ruby's `inspect`, which renders it as a Ruby
    literal, is the parameter `lit`. */
module ReferenceCompiler {
  import opened Wrappers

  /** `presenter_class.method_available?(name)` and
      `presenter_class.instance_method(name).arity`. */
  datatype Presenter = Presenter(methodAvailable: string -> bool, arity: string -> int)

  /** `Curly::InvalidReference` and the `Curly::Error`s of the compiler. */
  datatype CompileError =
    | InvalidReference(name: string)
    | ParameterRequired(name: string)
    | ParameterNotAllowed(name: string)

  function ErrorMessage(e: CompileError): string
  {
    match e
    case InvalidReference(name) => name
    case ParameterRequired(name) => "`" + name + "` requires a parameter"
    case ParameterNotAllowed(name) => "`" + name + "` does not take a parameter"
  }

  /** `compile(method, argument)` */
  function CompileReference<T>(presenter: Presenter, name: string, argument: Option<T>, lit: T -> string): Result<string, CompileError>
  {
    if !presenter.methodAvailable(name) then Failure(InvalidReference(name))
    else if presenter.arity(name) == 1 then
      if argument.None? then Failure(ParameterRequired(name))
      else Success("presenter." + name + "(" + lit(argument.value) + ")")
    else if argument.Some? then Failure(ParameterNotAllowed(name))
    else Success("presenter." + name)
  }

  class ReferenceCompiler {
    const presenter: Presenter

    constructor (presenter: Presenter)
      ensures this.presenter == presenter
    {
      this.presenter := presenter;
    }

    method Compile<T>(name: string, argument: Option<T>, lit: T -> string) returns (r: Result<string, CompileError>)
      ensures r == CompileReference(presenter, name, argument, lit)
    {
      if !presenter.methodAvailable(name) {
        return Failure(InvalidReference(name));
      }
      var code := "presenter." + name;
      if presenter.arity(name) == 1 {
        if argument.None? {
          return Failure(ParameterRequired(name));
        }
        code := code + "(" + lit(argument.value) + ")";
      } else if argument.Some? {
        return Failure(ParameterNotAllowed(name));
      }
      r := Success(code);
    }
  }
}

/** What the reference compiler promises. */
module ReferenceCompilerFacts {
  import opened Wrappers
  import opened ReferenceCompiler

  /** The call text: the method, and the argument in parentheses when there
      is one. */
  function Call<T>(name: string, argument: Option<T>, lit: T -> string): string
  {
    "presenter." + name + (if argument.Some? then "(" + lit(argument.value) + ")" else "")
  }

  /** A reference compiles exactly when the method is available and an
      argument is given exactly when the method takes one parameter, and it
      compiles to the call with that argument. */
  lemma CompileSucceeds<T>(presenter: Presenter, name: string, argument: Option<T>, lit: T -> string)
    ensures CompileReference(presenter, name, argument, lit).Success? <==>
      presenter.methodAvailable(name) && (presenter.arity(name) == 1 <==> argument.Some?)
    ensures CompileReference(presenter, name, argument, lit).Success? ==>
      CompileReference(presenter, name, argument, lit).value == Call(name, argument, lit)
  {
    if argument.None? {
      assert "presenter." + name + "" == "presenter." + name;
    }
  }

  /** Availability is checked before the arity, and the error names the
      method in every case. */
  lemma ErrorNamesMethod<T>(presenter: Presenter, name: string, argument: Option<T>, lit: T -> string)
    ensures !presenter.methodAvailable(name) ==> CompileReference(presenter, name, argument, lit) == Failure(InvalidReference(name))
    ensures CompileReference(presenter, name, argument, lit).Failure? ==>
      CompileReference(presenter, name, argument, lit).error.name == name
  {
  }

  /** A compiled reference starts with the presenter call and the method
      name, whatever the argument. */
  lemma CallPrefix<T>(presenter: Presenter, name: string, argument: Option<T>, lit: T -> string)
    requires CompileReference(presenter, name, argument, lit).Success?
    ensures var code := CompileReference(presenter, name, argument, lit).value;
      |"presenter." + name| <= |code| && code[..|"presenter." + name|] == "presenter." + name
  {
    CompileSucceeds(presenter, name, argument, lit);
  }
}
