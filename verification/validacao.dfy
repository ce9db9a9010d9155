/**
 * The two field validators of the registration and edit forms,
 * `validar_cep` and `validar_telefone`. Both forms define them identically.
 */
module Validacao {
  import opened Wrappers
  import opened Texto

  /** The CEP layout: five digits, an optional hyphen, three digits, and nothing else. */
  predicate CepFormat(s: string) {
    || (|s| == 8 && AllDigits(s))
    || (|s| == 9 && AllDigits(s[..5]) && s[5] == '-' && AllDigits(s[6..]))
  }

  /** Reads `n` digits starting at `i`, as `\d{n}` does; the position after them, if they are there. */
  function MatchDigits(s: string, i: nat, n: nat): (r: Option<nat>)
    requires i <= |s|
    ensures r.Some? <==> i + n <= |s| && forall k :: i <= k < i + n ==> IsDigit(s[k])
    ensures r.Some? ==> r.value == i + n
    decreases n
  {
    if n == 0 then Some(i)
    else if i < |s| && IsDigit(s[i]) then MatchDigits(s, i + 1, n - 1)
    else None
  }

  /**
   * `re.match(r'^\d{5}-?\d{3}$', cep) is not None`. Python's `$` also matches
   * just before a final newline, so one trailing "\n" is accepted too.
   */
  function ValidarCep(cep: string): (ok: bool)
    ensures ok <==> CepFormat(cep) || (cep != [] && cep[|cep| - 1] == '\n' && CepFormat(cep[..|cep| - 1]))
  {
    match MatchDigits(cep, 0, 5)
    case None => false
    case Some(i) =>
      var j := if i < |cep| && cep[i] == '-' then i + 1 else i;
      match MatchDigits(cep, j, 3)
      case None => false
      case Some(k) => k == |cep| || (k == |cep| - 1 && cep[k] == '\n')
  }

  /** Without a trailing newline, a CEP is valid exactly when it has the CEP layout. */
  lemma ValidarCepSemQuebra(cep: string)
    requires cep == [] || cep[|cep| - 1] != '\n'
    ensures ValidarCep(cep) <==> CepFormat(cep)
  {
  }

  /** `re.sub(r'[^\d]', '', s)`: the digits of `s`, in their order. */
  function SomenteDigitos(s: string): (r: string)
    ensures AllDigits(r) && |r| <= |s|
  {
    if s == [] then []
    else SomenteDigitos(s[..|s| - 1]) + (if IsDigit(s[|s| - 1]) then [s[|s| - 1]] else [])
  }

  /** The positions of `s` that hold a digit. */
  function DigitPositions(s: string): set<int> {
    set i | 0 <= i < |s| && IsDigit(s[i])
  }

  /** `len(re.sub(r'[^\d]', '', telefone)) >= 10`: the phone number has at least ten digits. */
  function ValidarTelefone(telefone: string): (ok: bool)
    ensures ok <==> |DigitPositions(telefone)| >= 10
  {
    DigitCount(telefone);
    |SomenteDigitos(telefone)| >= 10
  }

  /** Removing the non-digits keeps exactly one character per digit position. */
  lemma {:induction false} DigitCount(s: string)
    ensures |SomenteDigitos(s)| == |DigitPositions(s)|
    decreases |s|
  {
    if s != [] {
      var n := |s| - 1;
      DigitCount(s[..n]);
      PosicoesDoPrefixo(s);
      assert n !in DigitPositions(s[..n]);
    }
  }

  /** The digit positions of `s` are those of its prefix, plus the last position if it holds a digit. */
  lemma PosicoesDoPrefixo(s: string)
    requires s != []
    ensures DigitPositions(s) == DigitPositions(s[..|s| - 1]) + (if IsDigit(s[|s| - 1]) then {|s| - 1} else {})
  {
    var p := s[..|s| - 1];
    forall i
      ensures i in DigitPositions(s) <==> i in DigitPositions(p) + (if IsDigit(s[|s| - 1]) then {|s| - 1} else {})
    {
      if 0 <= i < |p| {
        assert p[i] == s[i];
      }
    }
  }

  /** Digit extraction distributes over concatenation. */
  lemma {:induction false} SomenteDigitosConcat(a: string, b: string)
    ensures SomenteDigitos(a + b) == SomenteDigitos(a) + SomenteDigitos(b)
    decreases |b|
  {
    if b == [] {
      assert a + b == a;
    } else {
      var b' := b[..|b| - 1];
      assert (a + b)[..|a + b| - 1] == a + b';
      SomenteDigitosConcat(a, b');
    }
  }

  lemma SomenteDigitosSemDigitos(s: string)
    requires forall i :: 0 <= i < |s| ==> !IsDigit(s[i])
    ensures SomenteDigitos(s) == []
  {
    if s != [] {
      SomenteDigitosSemDigitos(s[..|s| - 1]);
    }
  }

  /** Inserting a non-digit character anywhere does not change the phone verdict. */
  lemma TelefoneIgnoraNaoDigitos(a: string, c: char, b: string)
    requires !IsDigit(c)
    ensures ValidarTelefone(a + [c] + b) == ValidarTelefone(a + b)
  {
    SomenteDigitosConcat(a + [c], b);
    SomenteDigitosConcat(a, [c]);
    SomenteDigitosConcat(a, b);
    DigitCount(a + [c] + b);
    DigitCount(a + b);
  }

  /** Stripping surrounding whitespace removes no digit, so it keeps the phone verdict. */
  lemma TelefoneIgnoraStrip(s: string)
    ensures SomenteDigitos(Strip(s)) == SomenteDigitos(s)
    ensures ValidarTelefone(Strip(s)) == ValidarTelefone(s)
  {
    DigitosDoStrip(s);
    DigitCount(s);
    DigitCount(Strip(s));
  }

  lemma DigitosDoStrip(s: string)
    ensures SomenteDigitos(Strip(s)) == SomenteDigitos(s)
  {
    var antes, depois := StripPartes(s);
    DigitosEntreNaoDigitos(antes, Strip(s), depois);
  }

  /** Text without digits around `r` contributes nothing to the extracted digits. */
  lemma DigitosEntreNaoDigitos(pre: string, r: string, post: string)
    requires AllSpace(pre) && AllSpace(post)
    ensures SomenteDigitos(pre + r + post) == SomenteDigitos(r)
  {
    SomenteDigitosSemDigitos(pre);
    SomenteDigitosSemDigitos(post);
    SomenteDigitosConcat(pre + r, post);
    SomenteDigitosConcat(pre, r);
    assert [] + SomenteDigitos(r) + [] == SomenteDigitos(r);
  }

  lemma {:induction false} SomenteDigitosDeDigitos(s: string)
    requires AllDigits(s)
    ensures SomenteDigitos(s) == s
    decreases |s|
  {
    if s != [] {
      SomenteDigitosDeDigitos(s[..|s| - 1]);
    }
  }

  /** The CEP formats the registration form documents are accepted; a short one is not. */
  lemma ExemplosCep()
    ensures ValidarCep("12345-678") && ValidarCep("12345678")
    ensures !ValidarCep("1234-567")
  {
    assert CepFormat("12345-678");
    assert CepFormat("12345678");
  }

  /** The phone formats the registration form documents are accepted; five digits are not. */
  lemma ExemplosTelefone()
    ensures ValidarTelefone("(11) 99999-9999") && ValidarTelefone("11999999999")
    ensures !ValidarTelefone("11999")
  {
    TelefoneFormatadoAceito();
    TelefoneSoDigitosAceito();
    TelefoneCurtoRecusado();
  }

  lemma TelefoneFormatadoAceito()
    ensures ValidarTelefone("(11) 99999-9999")
  {
    DigitosDoTelefoneFormatado();
    DigitCount("(11) 99999-9999");
  }

  lemma TelefoneSoDigitosAceito()
    ensures ValidarTelefone("11999999999")
  {
    SomenteDigitosDeDigitos("11999999999");
    DigitCount("11999999999");
  }

  lemma TelefoneCurtoRecusado()
    ensures !ValidarTelefone("11999")
  {
    SomenteDigitosDeDigitos("11999");
    DigitCount("11999");
  }

  lemma DigitosDoTelefoneFormatado()
    ensures |SomenteDigitos("(11) 99999-9999")| == 11
  {
    var p1, p2, p3, p4, p5 := "(11", ") ", "99999", "-", "9999";
    assert "(11) 99999-9999" == p1 + p2 + p3 + p4 + p5;
    assert p1 == "(" + "11";
    SomenteDigitosConcat("(", "11");
    SomenteDigitosSemDigitos("(");
    SomenteDigitosDeDigitos("11");
    SomenteDigitosSemDigitos(p2);
    SomenteDigitosSemDigitos(p4);
    SomenteDigitosDeDigitos(p3);
    SomenteDigitosDeDigitos(p5);
    SomenteDigitosConcat(p1, p2);
    SomenteDigitosConcat(p1 + p2, p3);
    SomenteDigitosConcat(p1 + p2 + p3, p4);
    SomenteDigitosConcat(p1 + p2 + p3 + p4, p5);
  }
}
