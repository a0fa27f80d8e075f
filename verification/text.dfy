/**
 * The string operations of the Python runtime that the client relies on:
 * the substring test `pat in s`, `str(n)` for a page number, and `str.format`
 * applied to URL templates.
 */
module Text {
  import opened Options

  /** `pat` is the window of `s` that starts at index `i`. */
  predicate OccursAt(s: string, pat: string, i: int) {
    0 <= i && i + |pat| <= |s| && s[i..i + |pat|] == pat
  }

  /** Python's `pat in s` on strings: `pat` is the window of `s` at some index. */
  predicate Contains(s: string, pat: string) {
    exists i :: 0 <= i <= |s| && OccursAt(s, pat, i)
  }

  function DigitChar(d: nat): char
    requires d < 10
  {
    (d + '0' as int) as char
  }

  /** Python's `str(n)` for a non-negative integer: its decimal digits, no leading zeros. */
  function Dec(n: nat): string
    decreases n
  {
    if n < 10 then [DigitChar(n)] else Dec(n / 10) + [DigitChar(n % 10)]
  }

  /** Appending "00" to the decimal form of a positive number gives the decimal form of a hundred times it. */
  lemma HundredfoldDec(p: nat)
    requires p >= 1
    ensures Dec(p) + "00" == Dec(100 * p)
  {
    assert (100 * p) / 10 == 10 * p && (100 * p) % 10 == 0;
    assert (10 * p) / 10 == p && (10 * p) % 10 == 0;
    assert Dec(10 * p) == Dec(p) + [DigitChar(0)];
    assert Dec(100 * p) == Dec(10 * p) + [DigitChar(0)];
  }

  predicate IsDigit(c: char) {
    '0' <= c <= '9'
  }

  function Prepend(s: string, rest: Option<string>): Option<string> {
    if rest.None? then None else Some(s + rest.value)
  }

  /**
   * Python's `fmt.format(*args)` for the replacement fields the client uses:
   * `{d}` for a single decimal digit d names the positional argument d, and `{{`, `}}`
   * stand for literal braces. A field naming an argument that is not there is an
   * error (None), as Python raises. Every other use of a brace (`{}`, format specs,
   * conversions, indexing, multi-digit fields, a lone `}`) is outside this model and
   * also gives None.
   */
  function Format(fmt: string, args: seq<string>): Option<string>
    decreases |fmt|
  {
    if fmt == [] then Some([])
    else if fmt[0] == '{' then
      if |fmt| >= 2 && fmt[1] == '{' then Prepend("{", Format(fmt[2..], args))
      else if |fmt| >= 3 && IsDigit(fmt[1]) && fmt[2] == '}' && fmt[1] as int - '0' as int < |args| then
        Prepend(args[fmt[1] as int - '0' as int], Format(fmt[3..], args))
      else None
    else if fmt[0] == '}' then
      if |fmt| >= 2 && fmt[1] == '}' then Prepend("}", Format(fmt[2..], args)) else None
    else Prepend([fmt[0]], Format(fmt[1..], args))
  }

  /** Text without braces formats to itself. */
  lemma {:induction false} FormatPlain(s: string, args: seq<string>)
    requires '{' !in s && '}' !in s
    ensures Format(s, args) == Some(s)
    decreases |s|
  {
    if s != [] {
      assert s[0] in s;
      assert forall c :: c in s[1..] ==> c in s;
      FormatPlain(s[1..], args);
      assert [s[0]] + s[1..] == s;
    }
  }

  lemma PrependAssoc(s: string, t: string, rest: Option<string>)
    ensures Prepend(s, Prepend(t, rest)) == Prepend(s + t, rest)
  {
    if rest.Some? {
      assert s + (t + rest.value) == (s + t) + rest.value;
    }
  }

  /** Formatting distributes over a concatenation whose left part formats on its own. */
  lemma {:induction false} FormatAppend(a: string, b: string, args: seq<string>)
    requires Format(a, args).Some?
    ensures Format(a + b, args) == Prepend(Format(a, args).value, Format(b, args))
    decreases |a|
  {
    if a == [] {
      assert a + b == b;
      if Format(b, args).Some? {
        assert [] + Format(b, args).value == Format(b, args).value;
      }
    } else {
      var ab := a + b;
      assert ab[0] == a[0];
      if a[0] == '{' && |a| >= 2 && a[1] == '{' {
        assert ab[1] == a[1] && ab[2..] == a[2..] + b;
        FormatAppend(a[2..], b, args);
        PrependAssoc("{", Format(a[2..], args).value, Format(b, args));
      } else if a[0] == '{' {
        assert ab[1] == a[1] && ab[2] == a[2] && ab[3..] == a[3..] + b;
        FormatAppend(a[3..], b, args);
        PrependAssoc(args[a[1] as int - '0' as int], Format(a[3..], args).value, Format(b, args));
      } else if a[0] == '}' {
        assert ab[1] == a[1] && ab[2..] == a[2..] + b;
        FormatAppend(a[2..], b, args);
        PrependAssoc("}", Format(a[2..], args).value, Format(b, args));
      } else {
        assert ab[1..] == a[1..] + b;
        FormatAppend(a[1..], b, args);
        PrependAssoc([a[0]], Format(a[1..], args).value, Format(b, args));
      }
    }
  }

  /** A positional field followed by text: the argument, then the formatted text. */
  lemma FormatField(c: char, rest: string, args: seq<string>)
    requires IsDigit(c) && c as int - '0' as int < |args|
    ensures Format(['{', c, '}'] + rest, args) == Prepend(args[c as int - '0' as int], Format(rest, args))
  {
    var f := ['{', c, '}'] + rest;
    assert f[0] == '{' && f[1] == c && f[2] == '}' && f[3..] == rest;
  }

  /** Brace-free text, a positional field, then text that formats: each part in turn. */
  lemma FormatPlainField(p: string, c: char, rest: string, args: seq<string>)
    requires '{' !in p && '}' !in p
    requires IsDigit(c) && c as int - '0' as int < |args|
    requires Format(rest, args).Some?
    ensures Format(p + (['{', c, '}'] + rest), args)
         == Some(p + (args[c as int - '0' as int] + Format(rest, args).value))
  {
    FormatField(c, rest, args);
    FormatPlain(p, args);
    FormatAppend(p, ['{', c, '}'] + rest, args);
  }
}
