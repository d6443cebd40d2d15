/** Python's `str.format` with keyword arguments only, as the scraper uses it:
    `{name}` is replaced by the argument `name`, `{{` and `}}` stand for single
    braces, and the malformed cases raise. */
module PyFormat {
  import opened Wrappers
  import opened Text

  predicate NoBraces(s: string) {
    forall i :: 0 <= i < |s| ==> s[i] != '{' && s[i] != '}'
  }

  lemma NoBracesConcat(a: string, b: string)
    requires NoBraces(a) && NoBraces(b)
    ensures NoBraces(a + b)
  {
  }

  /** A keyword field name: not empty, no braces, not a positional index. */
  predicate FieldName(name: string) {
    name != [] && NoBraces(name) && !AllDigits(name)
  }

  /** The first `}` at or after position `i`. */
  function CloseBrace(t: string, i: nat): (j: Option<nat>)
    requires i <= |t|
    ensures j.Some? ==> i <= j.value < |t| && t[j.value] == '}' && forall k :: i <= k < j.value ==> t[k] != '}'
    ensures j.None? ==> forall k :: i <= k < |t| ==> t[k] != '}'
    decreases |t| - i
  {
    if i == |t| then None else if t[i] == '}' then Some(i) else CloseBrace(t, i + 1)
  }

  /** `prefix` put in front of a successful result; a failure passes through. */
  function Then(prefix: string, r: Result<string>): (q: Result<string>)
    ensures q.Failure? <==> r.Failure?
    ensures r.Failure? ==> q == r
    ensures r.Success? ==> q.value == prefix + r.value
  {
    match r
    case Success(v) => Success(prefix + v)
    case Failure(_) => r
  }

  /** `t.format(**args)`. A field whose name is empty or all digits is positional,
      and with no positional arguments it raises IndexError; an unknown name
      raises KeyError; an unmatched brace or a `{` inside a field raises ValueError. */
  function Format(t: string, args: map<string, string>): Result<string>
    decreases |t|
  {
    if t == [] then Success([])
    else if t[0] == '{' then
      if |t| > 1 && t[1] == '{' then Then("{", Format(t[2..], args))
      else match CloseBrace(t, 1)
        case None => Failure(ValueError)
        case Some(j) =>
          var name := t[1..j];
          if '{' in name then Failure(ValueError)
          else if name == [] || AllDigits(name) then Failure(IndexError)
          else if name !in args then Failure(KeyError)
          else Then(args[name], Format(t[j + 1..], args))
    else if t[0] == '}' then
      if |t| > 1 && t[1] == '}' then Then("}", Format(t[2..], args)) else Failure(ValueError)
    else Then([t[0]], Format(t[1..], args))
  }

  lemma ThenThen(a: string, b: string, r: Result<string>)
    ensures Then(a, Then(b, r)) == Then(a + b, r)
  {
    if r.Success? {
      assert a + (b + r.value) == (a + b) + r.value;
    }
  }

  /** Literal text without braces is copied through. */
  lemma {:induction false} FormatLiteral(lit: string, t: string, args: map<string, string>)
    requires NoBraces(lit)
    ensures Format(lit + t, args) == Then(lit, Format(t, args))
  {
    if lit == [] {
      assert lit + t == t;
      if Format(t, args).Success? {
        assert [] + Format(t, args).value == Format(t, args).value;
      }
    } else {
      var s := lit + t;
      assert s[0] == lit[0] && s[1..] == lit[1..] + t;
      FormatLiteral(lit[1..], t, args);
      ThenThen([lit[0]], lit[1..], Format(t, args));
      assert [lit[0]] + lit[1..] == lit;
    }
  }

  /** A keyword field is replaced by its argument. */
  lemma FormatField(name: string, t: string, args: map<string, string>)
    requires FieldName(name) && name in args
    ensures Format("{" + name + "}" + t, args) == Then(args[name], Format(t, args))
  {
    var s := "{" + name + "}" + t;
    assert s[0] == '{' && s[1] == name[0];
    assert forall k :: 1 <= k < |name| + 1 ==> s[k] == name[k - 1];
    assert s[|name| + 1] == '}';
    assert CloseBrace(s, 1) == Some(|name| + 1);
    assert s[1..|name| + 1] == name;
    assert s[|name| + 2..] == t;
  }

  /** Searching for `}` finds the same brace after more text is appended. */
  lemma {:induction false} CloseBraceExtend(a: string, b: string, i: nat)
    requires i <= |a| && CloseBrace(a, i).Some?
    ensures CloseBrace(a + b, i) == CloseBrace(a, i)
    decreases |a| - i
  {
    assert (a + b)[i] == a[i];
    if a[i] != '}' {
      CloseBraceExtend(a, b, i + 1);
    }
  }

  /** A template that formats on its own formats the same in front of more
      text: every field it opens it also closes. */
  lemma {:induction false} FormatConcat(a: string, b: string, args: map<string, string>)
    requires Format(a, args).Success?
    ensures Format(a + b, args) == Then(Format(a, args).value, Format(b, args))
    decreases |a|
  {
    var t := a + b;
    if a == [] {
      assert t == b;
      if Format(b, args).Success? {
        assert [] + Format(b, args).value == Format(b, args).value;
      }
    } else {
      assert t[0] == a[0];
      assert |a| > 1 ==> t[1] == a[1];
      if a[0] == '{' && |a| > 1 && a[1] == '{' {
        assert t[2..] == a[2..] + b;
        FormatConcat(a[2..], b, args);
        ThenThen("{", Format(a[2..], args).value, Format(b, args));
      } else if a[0] == '{' {
        var j := CloseBrace(a, 1).value;
        CloseBraceExtend(a, b, 1);
        assert t[1..j] == a[1..j];
        assert t[j + 1..] == a[j + 1..] + b;
        FormatConcat(a[j + 1..], b, args);
        ThenThen(args[a[1..j]], Format(a[j + 1..], args).value, Format(b, args));
      } else if a[0] == '}' {
        assert t[2..] == a[2..] + b;
        FormatConcat(a[2..], b, args);
        ThenThen("}", Format(a[2..], args).value, Format(b, args));
      } else {
        assert t[1..] == a[1..] + b;
        FormatConcat(a[1..], b, args);
        ThenThen([a[0]], Format(a[1..], args).value, Format(b, args));
      }
    }
  }

  /** `"{" + name + "}"`: a replacement field. */
  function Field(name: string): string {
    "{" + name + "}"
  }

  /** A lone keyword field formats to its argument. */
  lemma FormatOneField(name: string, args: map<string, string>)
    requires FieldName(name) && name in args
    ensures Format(Field(name), args) == Success(args[name])
  {
    FormatField(name, [], args);
    assert Field(name) + [] == Field(name);
    assert args[name] + [] == args[name];
  }

  /** Text without braces formats to itself. */
  lemma FormatPlain(lit: string, args: map<string, string>)
    requires NoBraces(lit)
    ensures Format(lit, args) == Success(lit)
  {
    FormatLiteral(lit, [], args);
    assert lit + [] == lit;
  }

  /** A lone closing brace raises, as `"a}b".format()` does. */
  lemma LoneCloseBrace(a: string, b: string, args: map<string, string>)
    requires NoBraces(a) && (b == [] || b[0] != '}')
    ensures Format(a + "}" + b, args) == Failure(ValueError)
  {
    assert a + "}" + b == a + ("}" + b);
    FormatLiteral(a, "}" + b, args);
    assert ("}" + b)[0] == '}';
    assert |"}" + b| > 1 ==> ("}" + b)[1] == b[0];
  }
}
