/** Values shared by every table and handler of the laboratory engine. */
module Common {

  datatype Option<T> = None | Some(value: T) {
    function GetOr(default: T): T
    {
      match this
      case Some(v) => v
      case None => default
    }
  }

  /**
   * Why a handler did nothing. Each case stands for one of the warning or
   * error dialogs the application shows before returning without a write.
   */
  datatype Falla =
    | Validacion(campo: string)       // a required form field is missing or empty
    | Duplicado(columna: string)      // a UNIQUE constraint rejected the write
    | Conflicto                       // the equipment is already booked in that slot
    | TransicionInvalida              // the row is not in a state the action accepts
    | Prohibido                       // the protected administrator account
    | NoEncontrado                    // the referenced row does not exist
    | Declinada                       // the user answered "no" to the confirmation dialog

  datatype Resultado = Hecho | Fallo(falla: Falla)

  function Digit(d: nat): char
    requires d < 10
  {
    ('0' as int + d) as char
  }

  function NatText(n: nat): (s: string)
    ensures |s| > 0
    decreases n
  {
    if n < 10 then [Digit(n)] else NatText(n / 10) + [Digit(n % 10)]
  }

  /** Python's `str(n)` for an integer, as used in the audit-log messages. */
  function IntText(n: int): (s: string)
    ensures |s| > 0
  {
    if n < 0 then "-" + NatText(-n) else NatText(n)
  }

  function DigitValue(c: char): nat
  {
    if '0' <= c <= '9' then (c as int - '0' as int) as nat else 0
  }

  /** Reading a string of decimal digits back as a number. */
  function ParseNat(s: string): nat
    decreases |s|
  {
    if s == [] then 0 else ParseNat(s[..|s| - 1]) * 10 + DigitValue(s[|s| - 1])
  }

  function ParseInt(s: string): int
  {
    if |s| > 0 && s[0] == '-' then -(ParseNat(s[1..]) as int) else ParseNat(s)
  }

  lemma {:induction false} ParseNatText(n: nat)
    ensures ParseNat(NatText(n)) == n
    ensures NatText(n)[0] != '-'
    decreases n
  {
    if n >= 10 {
      ParseNatText(n / 10);
      var s := NatText(n / 10) + [Digit(n % 10)];
      assert s[..|s| - 1] == NatText(n / 10);
      assert DigitValue(s[|s| - 1]) == n % 10;
      assert ParseNat(s) == (n / 10) * 10 + n % 10;
    } else {
      assert [Digit(n)][..0] == [];
    }
  }

  /** `str(n)` is read back as n: the number in a log message identifies its row. */
  lemma ParseIntText(n: int)
    ensures ParseInt(IntText(n)) == n
  {
    if n < 0 {
      ParseNatText(-n);
      assert ("-" + NatText(-n))[1..] == NatText(-n);
    } else {
      ParseNatText(n);
    }
  }

  lemma IntTextInjective(a: int, b: int)
    requires IntText(a) == IntText(b)
    ensures a == b
  {
    ParseIntText(a);
    ParseIntText(b);
  }
}
