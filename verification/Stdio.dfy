/** Number printing: itoa and vsprintf of lib/stdio.c, put_int of lib/kernel/print.S. */
module Stdio {

  const NUL := '\0'
  const UINT := 0x1_0000_0000

  function DigitChar(m: nat): char
    requires m < 16
  {
    if m < 10 then '0' + m as char else 'A' + (m - 10) as char
  }

  /** The value of a digit; anything else counts as 16, which is a digit of no base used here. */
  function DigitValue(c: char): nat
  {
    if '0' <= c <= '9' then (c - '0') as nat
    else if 'A' <= c <= 'F' then (c - 'A') as nat + 10
    else 16
  }

  lemma DigitBack(m: nat)
    requires m < 16
    ensures DigitValue(DigitChar(m)) == m
    ensures DigitChar(m) == '0' <==> m == 0
  {
  }

  lemma CharBack(c: char)
    requires DigitValue(c) < 16
    ensures DigitChar(DigitValue(c)) == c
  {
  }

  /** What itoa appends. */
  function Digits(v: nat, base: nat): (s: string)
    requires base == 10 || base == 16
    ensures |s| >= 1
    decreases v
  {
    DivModBack(v, base);
    (if v / base > 0 then Digits(v / base, base) else "") + [DigitChar(v % base)]
  }

  predicate IsNumeral(s: string, base: nat)
  {
    forall k :: 0 <= k < |s| ==> DigitValue(s[k]) < base
  }

  function Parse(s: string, base: nat): nat
  {
    if s == [] then 0 else Parse(s[..|s| - 1], base) * base + DigitValue(s[|s| - 1])
  }

  /** Parsing what was printed gives the number; only 0 starts with a zero. */
  lemma {:induction false} PrintParse(v: nat, base: nat)
    requires base == 10 || base == 16
    ensures IsNumeral(Digits(v, base), base) && Parse(Digits(v, base), base) == v
    ensures Digits(v, base)[0] == '0' <==> v == 0
    decreases v
  {
    var s := Digits(v, base);
    DivModBack(v, base);
    DigitBack(v % base);
    if v / base > 0 {
      var front := Digits(v / base, base);
      PrintParse(v / base, base);
      assert s == front + [DigitChar(v % base)] && s[..|s| - 1] == front;
    } else {
      assert s == [DigitChar(v % base)] && s[..0] == [];
    }
  }

  lemma {:induction false} ParsePositive(s: string, base: nat)
    requires s != [] && s[0] != '0' && IsNumeral(s, base) && (base == 10 || base == 16)
    ensures Parse(s, base) > 0
    decreases |s|
  {
    CharBack(s[0]);
    if |s| == 1 {
      assert s[..0] == [];
    } else {
      var front := s[..|s| - 1];
      assert front[0] == s[0];
      ParsePositive(front, base);
      assert Parse(front, base) * base > 0 by { if base == 10 {} else {} }
    }
  }

  /** The printed form is the only numeral of its value without a leading zero, so printing what
      was parsed gives the string back. */
  lemma {:induction false} ParsePrint(s: string, base: nat)
    requires (base == 10 || base == 16) && IsNumeral(s, base)
    requires s == "0" || (s != [] && s[0] != '0')
    ensures Digits(Parse(s, base), base) == s
    decreases |s|
  {
    var front, last := s[..|s| - 1], s[|s| - 1];
    PrintLast(s, base);
    assert s == front + [last];
    if |s| > 1 {
      assert front[0] == s[0];
      ParsePositive(front, base);
      ParsePrint(front, base);
    }
  }

  lemma PrintLast(s: string, base: nat)
    requires (base == 10 || base == 16) && IsNumeral(s, base) && s != []
    ensures var q := Parse(s[..|s| - 1], base);
            Digits(Parse(s, base), base) == (if q > 0 then Digits(q, base) else "") + [s[|s| - 1]]
  {
    var q, d := Parse(s[..|s| - 1], base), DigitValue(s[|s| - 1]);
    CharBack(s[|s| - 1]);
    assert Parse(s, base) == q * base + d;
    DigitsSplit(q, d, base);
  }

  lemma DigitsSplit(q: nat, d: nat, base: nat)
    requires (base == 10 || base == 16) && d < base
    ensures Digits(q * base + d, base) == (if q > 0 then Digits(q, base) else "") + [DigitChar(d)]
  {
    DivMod(q, d, base);
  }

  lemma DivMod(q: nat, d: nat, base: nat)
    requires (base == 10 || base == 16) && d < base
    ensures (q * base + d) / base == q && (q * base + d) % base == d
  {
    if base == 10 {
      assert (q * 10 + d) / 10 == q;
    } else {
      assert (q * 16 + d) / 16 == q;
    }
  }

  lemma DivModBack(v: nat, base: nat)
    requires base == 10 || base == 16
    ensures v == v / base * base + v % base && v % base < base && v / base <= v
    ensures v / base > 0 ==> v / base < v
    ensures v / base == 0 ==> v < base && v % base == v
  {
    if base == 10 {
      assert v == v / 10 * 10 + v % 10;
    } else {
      assert v == v / 16 * 16 + v % 16;
    }
  }

  /** The two branches both printers use for one digit. */
  method DigitToChar(m: nat) returns (c: char)
    requires m < 16
    ensures c == DigitChar(m)
  {
    if m < 10 {
      c := '0' + m as char;
    } else {
      c := 'A' + (m - 10) as char;
    }
  }

  /** itoa: writes through the advancing buffer pointer, highest digit first. */
  method Itoa(value: nat, buf: array<char>, pos: nat, base: nat) returns (next: nat)
    requires (base == 10 || base == 16) && pos + |Digits(value, base)| <= buf.Length
    modifies buf
    ensures next == pos + |Digits(value, base)|
    ensures buf[pos..next] == Digits(value, base)
    ensures forall k :: 0 <= k < buf.Length && !(pos <= k < next) ==> buf[k] == old(buf[k])
    decreases value
  {
    var m, i := value % base, value / base;
    DivModBack(value, base);
    next := pos;
    if i > 0 {
      next := Itoa(i, buf, pos, base);
    }
    ghost var front := buf[pos..next];
    var c := DigitToChar(m);
    buf[next] := c;
    next := next + 1;
    assert buf[pos..next] == front + [DigitChar(m)];
  }

  // ----- put_int -----

  /** The n low hex digits of v, highest first. */
  function Fixed(v: nat, n: nat): (s: string)
    ensures |s| == n
  {
    if n == 0 then "" else Fixed(v / 16, n - 1) + [DigitChar(v % 16)]
  }

  function SkipZeros(s: string): string
  {
    if s != [] && s[0] == '0' then SkipZeros(s[1..]) else s
  }

  function Pow16(n: nat): nat
  {
    if n == 0 then 1 else 16 * Pow16(n - 1)
  }

  lemma {:induction false} SkipZerosAppend(s: string, t: string)
    ensures SkipZeros(s + t) == if SkipZeros(s) == "" then SkipZeros(t) else SkipZeros(s) + t
  {
    if s == [] {
      assert s + t == t;
    } else if s[0] == '0' {
      SkipZerosAppend(s[1..], t);
      assert (s + t)[1..] == s[1..] + t;
    }
  }

  /** The fixed-width hex string without its leading zeros is what itoa prints in base 16. */
  lemma {:induction false} FixedIsDigits(v: nat, n: nat)
    requires v < Pow16(n)
    ensures SkipZeros(Fixed(v, n)) == if v == 0 then "" else Digits(v, 16)
    decreases n
  {
    if n > 0 {
      FixedIsDigits(v / 16, n - 1);
      SkipZerosAppend(Fixed(v / 16, n - 1), [DigitChar(v % 16)]);
      DigitBack(v % 16);
      assert [DigitChar(v % 16)][1..] == [];
    }
  }

  /** The loop of lines 156 to 174: eight digits, lowest first, from the right. */
  method FillHex(value: nat, buffer: array<char>)
    requires buffer.Length == 10
    modifies buffer
    ensures buffer[..8] == Fixed(value, 8)
  {
    var eax, edi, ecx := value, 7, 8;
    while ecx > 0
      invariant 0 <= ecx <= 8 && edi == ecx - 1
      invariant Fixed(value, 8) == Fixed(eax, ecx) + buffer[ecx..8]
      decreases ecx
    {
      ghost var tail := buffer[ecx..8];
      var dl := DigitToChar(eax % 16);
      buffer[edi] := dl;
      assert buffer[ecx - 1..8] == [dl] + tail;
      assert Fixed(eax, ecx) + tail == Fixed(eax / 16, ecx - 1) + ([dl] + tail);
      edi := edi - 1;
      eax := eax / 16;
      ecx := ecx - 1;
    }
  }

  /** Lines 178 to 190: the place of the first digit that is not '0', or 8. */
  method FirstNonZero(buffer: array<char>) returns (edi: nat)
    requires buffer.Length == 10
    ensures edi <= 8 && SkipZeros(buffer[..8]) == buffer[edi..8]
  {
    edi := 0;
    ghost var all := buffer[..8];
    while edi < 8 && buffer[edi] == '0'
      invariant 0 <= edi <= 8 && SkipZeros(buffer[edi..8]) == SkipZeros(all)
      decreases 8 - edi
    {
      assert buffer[edi..8][1..] == buffer[edi + 1..8];
      edi := edi + 1;
    }
  }

  /** Lines 192 to 203: prints cl first, then up to the end of the buffer. The byte after the
      buffer is read once and not printed. */
  method EmitFrom(buffer: array<char>, first: nat) returns (out: string)
    requires buffer.Length == 10 && first <= 8
    ensures out == if first == 8 then "0" else buffer[first..8]
  {
    var edi := first;
    var cl := if edi == 8 then '0' else buffer[edi];
    out := [cl];
    edi := edi + 1;
    cl := buffer[edi];
    while edi < 8
      invariant first < edi <= 9 && (first < 8 ==> edi <= 8 && out == buffer[first..edi])
      invariant first == 8 ==> edi == 9 && out == "0"
      invariant cl == buffer[edi]
      decreases 9 - edi
    {
      out := out + [cl];
      edi := edi + 1;
      cl := buffer[edi];
    }
  }

  /** put_int prints what itoa prints in base 16. */
  method PutInt(value: nat, buffer: array<char>) returns (out: string)
    requires value < UINT && buffer.Length == 10
    modifies buffer
    ensures out == Digits(value, 16)
  {
    FillHex(value, buffer);
    var edi := FirstNonZero(buffer);
    out := EmitFrom(buffer, edi);
    Hex8(value, buffer[edi..8]);
  }

  lemma Hex8(value: nat, rest: string)
    requires value < UINT && SkipZeros(Fixed(value, 8)) == rest
    ensures Digits(value, 16) == if rest == "" then "0" else rest
  {
    assert Pow16(2) == 256;
    assert Pow16(4) == 65536;
    assert Pow16(6) == 0x100_0000;
    assert Pow16(8) == UINT;
    FixedIsDigits(value, 8);
  }

  // ----- vsprintf -----

  /** A 32-bit signed word, the address of a C string, or a character. */
  datatype Arg = Int(w: int) | Str(s: string) | Chr(c: char)

  predicate NoNul(s: string)
  {
    forall k :: 0 <= k < |s| ==> s[k] != NUL
  }

  function Unsigned(w: int): nat
  {
    w % UINT
  }

  predicate IsConv(c: char)
  {
    c == 's' || c == 'c' || c == 'd' || c == 'x'
  }

  predicate Matches(c: char, a: Arg)
  {
    if c == 's' then a.Str? && NoNul(a.s)
    else if c == 'c' then a.Chr?
    else a.Int? && -0x8000_0000 <= a.w < 0x8000_0000
  }

  /** Arguments match the conversions, as C demands of the caller. */
  predicate Typed(f: string, args: seq<Arg>)
    decreases |f|
  {
    if f == "" || (|f| == 1 && f[0] == '%') then true
    else if f[0] != '%' then Typed(f[1..], args)
    else if IsConv(f[1]) then args != [] && Matches(f[1], args[0]) && Typed(f[2..], args[1..])
    else Typed(f[1..], args)
  }

  /** What one conversion prints. */
  function Converted(c: char, a: Arg): string
    requires Matches(c, a)
  {
    if c == 's' then a.s
    else if c == 'c' then [a.c]
    else if c == 'd' then Decimal(a.w)
    else Digits(Unsigned(a.w), 16)
  }

  /** The text of a format: an unknown conversion drops its percent sign and goes on with the
      character after it; a percent sign at the end prints nothing. */
  function Render(f: string, args: seq<Arg>): string
    requires Typed(f, args)
    decreases |f|
  {
    if f == "" || (|f| == 1 && f[0] == '%') then ""
    else if f[0] != '%' then [f[0]] + Render(f[1..], args)
    else if IsConv(f[1]) then Converted(f[1], args[0]) + Render(f[2..], args[1..])
    else Render(f[1..], args)
  }

  /** A %s conversion is followed by text that renders empty: the NUL strcpy puts after the string is
      then the one that ends the text. */
  predicate EndsInStr(f: string, args: seq<Arg>)
    requires Typed(f, args)
    decreases |f|
  {
    if f == "" || (|f| == 1 && f[0] == '%') then false
    else if f[0] != '%' then EndsInStr(f[1..], args)
    else if IsConv(f[1]) then
      (f[1] == 's' && Render(f[2..], args[1..]) == "") || EndsInStr(f[2..], args[1..])
    else EndsInStr(f[1..], args)
  }

  /** %d as the reader expects it. */
  function Decimal(w: int): string
  {
    if w < 0 then "-" + Digits(-w, 10) else Digits(w, 10)
  }

  /** 0 - arg in 32-bit arithmetic, then passed on as unsigned: right even for the least int. */
  lemma NegateWraps(w: int)
    requires -0x8000_0000 <= w < 0
    ensures Unsigned(if w == -0x8000_0000 then w else 0 - w) == -w
  {
  }

  /** %d can be read back. */
  lemma DecimalInverts(w: int)
    requires -0x8000_0000 <= w < 0x8000_0000
    ensures ReadDecimal(Decimal(w)) == w
  {
    var v := if w < 0 then -w else w;
    PrintParse(v, 10);
    HeadNotMinus(v);
    if w < 0 {
      assert Decimal(w)[0] == '-' && Decimal(w)[1..] == Digits(v, 10);
    }
  }

  /** So can %x. */
  lemma HexInverts(w: int)
    requires -0x8000_0000 <= w < 0x8000_0000
    ensures ReadHex(Digits(Unsigned(w), 16)) == w
  {
    PrintParse(Unsigned(w), 16);
  }

  function ReadDecimal(s: string): int
  {
    if s != "" && s[0] == '-' then -(Parse(s[1..], 10) as int) else Parse(s, 10)
  }

  function ReadHex(s: string): int
  {
    var u := Parse(s, 16);
    if u < 0x8000_0000 then u else u - UINT
  }

  // ----- what a conversion prints, as it reads in the rendered text -----

  predicate NoPercent(s: string)
  {
    forall k :: 0 <= k < |s| ==> s[k] != '%'
  }

  /** f ends with a whole conversion or after one, and takes n arguments. */
  predicate Whole(f: string, n: nat)
    decreases |f|
  {
    if f == "" then n == 0
    else if f[0] != '%' then Whole(f[1..], n)
    else |f| > 1 && if IsConv(f[1]) then n > 0 && Whole(f[2..], n - 1) else Whole(f[1..], n)
  }

  /** all is f with g behind it. */
  lemma Behind(f: string, g: string, all: string, n: nat)
    requires all == f + g && n <= |f|
    ensures all[n..] == f[n..] + g && forall k :: 0 <= k < |f| ==> all[k] == f[k]
  {
  }

  lemma Joined(head: string, x: string, y: string)
    ensures head + (x + y) == head + x + y
  {
  }

  /** Formats are rendered piece by piece: text and arguments of a format that ends with a whole
      conversion do not depend on what follows, nor the other way round. */
  lemma {:induction false} RenderConcat(f: string, a: seq<Arg>, g: string, b: seq<Arg>, all: string, args: seq<Arg>)
    requires Whole(f, |a|) && Typed(f, a) && Typed(g, b) && all == f + g && args == a + b
    ensures Typed(all, args) && Render(all, args) == Render(f, a) + Render(g, b)
    decreases |f|
  {
    if f == "" {
      assert all == g && args == b;
    } else if f[0] != '%' {
      Behind(f, g, all, 1);
      RenderConcat(f[1..], a, g, b, all[1..], args);
      Joined([f[0]], Render(f[1..], a), Render(g, b));
    } else if IsConv(f[1]) {
      Behind(f, g, all, 2);
      assert args[1..] == a[1..] + b;
      RenderConcat(f[2..], a[1..], g, b, all[2..], args[1..]);
      Joined(Converted(f[1], a[0]), Render(f[2..], a[1..]), Render(g, b));
    } else {
      Behind(f, g, all, 1);
      RenderConcat(f[1..], a, g, b, all[1..], args);
    }
  }

  /** Text without percent signs is printed as it stands. */
  lemma {:induction false} RenderText(f: string)
    requires NoPercent(f)
    ensures Whole(f, 0) && Typed(f, []) && Render(f, []) == f
    decreases |f|
  {
    if f != "" { RenderText(f[1..]); }
  }

  /** One conversion between two texts: the texts, and between them what it prints alone. */
  lemma RenderBetween(pre: string, c: char, a: Arg, post: string)
    requires NoPercent(pre) && NoPercent(post) && IsConv(c) && Matches(c, a)
    ensures Typed(['%', c], [a]) && Typed(pre + ['%', c] + post, [a])
    ensures Render(pre + ['%', c] + post, [a]) == pre + Render(['%', c], [a]) + post
  {
    OneConversion(c, a);
    RenderText(pre);
    RenderText(post);
    RenderConcat(pre, [], ['%', c], [a], pre + ['%', c], [a]);
    RenderWhole(pre, ['%', c], 1);
    RenderConcat(pre + ['%', c], [a], post, [], pre + ['%', c] + post, [a]);
  }

  lemma OneConversion(c: char, a: Arg)
    requires IsConv(c) && Matches(c, a)
    ensures Whole(['%', c], 1) && Typed(['%', c], [a]) && Render(['%', c], [a]) == Converted(c, a)
  {
    assert ['%', c][2..] == "" && [a][1..] == [];
  }

  lemma {:induction false} RenderWhole(f: string, g: string, n: nat)
    requires NoPercent(f) && Whole(g, n)
    ensures Whole(f + g, n)
    decreases |f|
  {
    if f == "" {
      assert f + g == g;
    } else {
      RenderWhole(f[1..], g, n);
      assert (f + g)[1..] == f[1..] + g;
    }
  }

  /** Every word printed by %x between two texts reads back from the place it was printed at. */
  lemma HexInText(pre: string, w: int, post: string)
    requires NoPercent(pre) && NoPercent(post) && -0x8000_0000 <= w < 0x8000_0000
    ensures Typed(pre + "%x" + post, [Int(w)])
    ensures var text := Render(pre + "%x" + post, [Int(w)]);
            |text| > |pre| + |post| && text[..|pre|] == pre && text[|text| - |post|..] == post &&
            ReadHex(text[|pre|..|text| - |post|]) == w
  {
    RenderBetween(pre, 'x', Int(w), post);
    OneConversion('x', Int(w));
    HexInverts(w);
    Middle(pre, Render("%x", [Int(w)]), post);
  }

  /** So does every word printed by %d. */
  lemma DecimalInText(pre: string, w: int, post: string)
    requires NoPercent(pre) && NoPercent(post) && -0x8000_0000 <= w < 0x8000_0000
    ensures Typed(pre + "%d" + post, [Int(w)])
    ensures var text := Render(pre + "%d" + post, [Int(w)]);
            |text| > |pre| + |post| && text[..|pre|] == pre && text[|text| - |post|..] == post &&
            ReadDecimal(text[|pre|..|text| - |post|]) == w
  {
    RenderBetween(pre, 'd', Int(w), post);
    OneConversion('d', Int(w));
    DecimalInverts(w);
    Middle(pre, Render("%d", [Int(w)]), post);
  }

  /** %s and %c leave their argument as it is, and an unknown conversion leaves its letter. */
  lemma ArgumentInText(pre: string, s: string, c: char, post: string)
    requires NoPercent(pre) && NoPercent(post) && NoNul(s)
    ensures Typed(pre + "%s" + post, [Str(s)]) && Render(pre + "%s" + post, [Str(s)]) == pre + s + post
    ensures Typed(pre + "%c" + post, [Chr(c)]) && Render(pre + "%c" + post, [Chr(c)]) == pre + [c] + post
    ensures !IsConv(c) && c != '%' ==> Typed(['%', c], []) && Render(['%', c], []) == [c]
  {
    RenderBetween(pre, 's', Str(s), post);
    OneConversion('s', Str(s));
    RenderBetween(pre, 'c', Chr(c), post);
    OneConversion('c', Chr(c));
    if !IsConv(c) && c != '%' {
      RenderText([c]);
      assert ['%', c][1..] == [c];
    }
  }

  lemma Middle(pre: string, mid: string, post: string)
    ensures var text := pre + mid + post;
            text[..|pre|] == pre && text[|text| - |post|..] == post && text[|pre|..|text| - |post|] == mid
  {
  }

  lemma HeadNotMinus(v: nat)
    ensures Digits(v, 10)[0] != '-'
  {
    PrintParse(v, 10);
    assert DigitValue(Digits(v, 10)[0]) < 10;
  }

  method Strcpy(buf: array<char>, pos: nat, src: string)
    requires pos + |src| < buf.Length
    modifies buf
    ensures buf[pos..pos + |src|] == src && buf[pos + |src|] == NUL
    ensures forall k :: 0 <= k < buf.Length && !(pos <= k <= pos + |src|) ==> buf[k] == old(buf[k])
  {
    for i := 0 to |src|
      invariant forall k :: 0 <= k < buf.Length ==> buf[k] == if pos <= k < pos + i then src[k - pos] else old(buf[k])
    {
      buf[pos + i] := src[i];
    }
    buf[pos + |src|] := NUL;
  }

  method Strlen(buf: array<char>) returns (n: nat)
    requires exists k :: 0 <= k < buf.Length && buf[k] == NUL
    ensures n < buf.Length && buf[n] == NUL && NoNul(buf[..n])
  {
    n := 0;
    while buf[n] != NUL
      invariant n < buf.Length && NoNul(buf[..n])
      invariant exists k :: n <= k < buf.Length && buf[k] == NUL
      decreases buf.Length - n
    {
      n := n + 1;
    }
  }

  /** One conversion, at f[0] == '%'. */
  method Convert(buf: array<char>, pos: nat, c: char, a: Arg) returns (next: nat)
    requires IsConv(c) && Matches(c, a)
    requires pos + |Converted(c, a)| < buf.Length
    modifies buf
    ensures next == pos + |Converted(c, a)| && buf[pos..next] == Converted(c, a)
    ensures forall k :: 0 <= k < buf.Length && !(pos <= k <= next) ==> buf[k] == old(buf[k])
    ensures buf[next] == if c == 's' then NUL else old(buf[next])
    ensures c != 's' ==> next > pos
  {
    match c {
      case 's' =>
        Strcpy(buf, pos, a.s);
        next := pos + |a.s|;
      case 'c' =>
        buf[pos] := a.c;
        next := pos + 1;
      case 'd' =>
        next := ConvertDecimal(buf, pos, a.w);
      case 'x' =>
        next := Itoa(Unsigned(a.w), buf, pos, 16);
    }
  }

  method ConvertDecimal(buf: array<char>, pos: nat, w: int) returns (next: nat)
    requires -0x8000_0000 <= w < 0x8000_0000 && pos + |Decimal(w)| < buf.Length
    modifies buf
    ensures next == pos + |Decimal(w)| && buf[pos..next] == Decimal(w)
    ensures forall k :: 0 <= k < buf.Length && !(pos <= k < next) ==> buf[k] == old(buf[k])
  {
    if w < 0 {
      next := ConvertNegative(buf, pos, w);
    } else {
      assert Unsigned(w) == w;
      next := Itoa(Unsigned(w), buf, pos, 10);
    }
  }

  method ConvertNegative(buf: array<char>, pos: nat, w: int) returns (next: nat)
    requires -0x8000_0000 <= w < 0 && pos + 1 + |Digits(-w, 10)| < buf.Length
    modifies buf
    ensures next == pos + 1 + |Digits(-w, 10)| && buf[pos..next] == "-" + Digits(-w, 10)
    ensures forall k :: 0 <= k < buf.Length && !(pos <= k < next) ==> buf[k] == old(buf[k])
  {
    NegateWraps(w);
    var arg := if w == -0x8000_0000 then w else 0 - w;
    buf[pos] := '-';
    next := Itoa(Unsigned(arg), buf, pos + 1, 10);
    assert buf[pos..next] == [buf[pos]] + buf[pos + 1..next];
  }

  /** One turn of the loop: an ordinary character, a conversion, or a percent sign to drop. */
  method OneTurn(str: array<char>, at: nat, f: string, args: seq<Arg>)
    returns (pos: nat, g: string, rest: seq<Arg>, ghost nul: bool)
    requires Typed(f, args) && f != "" && !(|f| == 1 && f[0] == '%') && at + |Render(f, args)| < str.Length
    modifies str
    ensures |g| < |f| && Typed(g, rest) && at <= pos && pos + |Render(g, rest)| == at + |Render(f, args)|
    ensures Render(f, args) == str[at..pos] + Render(g, rest)
    ensures forall k :: 0 <= k < str.Length && !(at <= k <= pos) ==> str[k] == old(str[k])
    ensures str[pos] == if nul then NUL else old(str[pos])
    ensures EndsInStr(f, args) <==> EndsInStr(g, rest) || (nul && Render(g, rest) == "")
  {
    if f[0] != '%' {
      str[at] := f[0];
      pos, g, rest, nul := at + 1, f[1..], args, false;
      assert str[at..pos] == [f[0]];
    } else if IsConv(f[1]) {
      pos := Convert(str, at, f[1], args[0]);
      g, rest, nul := f[2..], args[1..], f[1] == 's';
    } else {
      pos, g, rest, nul := at, f[1..], args, false;
    }
  }

  /** The loop of lines 33 to 70. */
  method FormatInto(str: array<char>, format: string, args: seq<Arg>) returns (pos: nat)
    requires Typed(format, args) && |Render(format, args)| < str.Length
    modifies str
    ensures pos == |Render(format, args)| && str[..pos] == Render(format, args)
    ensures forall k :: pos < k < str.Length ==> str[k] == old(str[k])
    ensures str[pos] == if EndsInStr(format, args) then NUL else old(str[pos])
  {
    pos := 0;
    var f, rest := format, args;
    ghost var text, ends := Render(format, args), EndsInStr(format, args);
    ghost var nul := false;   // the last thing written was a string's own NUL
    while f != "" && !(|f| == 1 && f[0] == '%')
      invariant Typed(f, rest) && pos <= |text| && text[pos..] == Render(f, rest)
      invariant forall k :: 0 <= k < pos ==> str[k] == text[k]
      invariant forall k :: pos < k < str.Length ==> str[k] == old(str[k])
      invariant str[pos] == if nul then NUL else old(str[pos])
      invariant ends <==> EndsInStr(f, rest) || (nul && Render(f, rest) == "")
      decreases |f|
    {
      ghost var was := pos;
      ghost var strEnd: bool;
      pos, f, rest, strEnd := OneTurn(str, pos, f, rest);
      SplitText(text, was, pos, str[was..pos], Render(f, rest));
      nul := strEnd || (was == pos && nul);
    }
    assert Render(f, rest) == "";
    assert str[..pos] == text;
  }

  lemma SplitText(text: string, at: nat, pos: nat, mid: string, tail: string)
    requires at <= pos <= |text| && text[at..] == mid + tail && |mid| == pos - at
    ensures text[pos..] == tail && forall k :: at <= k < pos ==> text[k] == mid[k - at]
    ensures |text| == pos + |tail|
  {
    assert forall k :: at <= k < |text| ==> text[k] == (mid + tail)[k - at];
  }

  /** vsprintf writes no final NUL. The length it returns is the text's exactly when the text holds
      no NUL and one stands behind it: in the buffer before the call, or because a string ended it. */
  method Vsprintf(str: array<char>, format: string, args: seq<Arg>) returns (r: nat)
    requires NoNul(format) && Typed(format, args) && |Render(format, args)| + 1 < str.Length
    requires str[str.Length - 1] == NUL
    modifies str
    ensures str[..|Render(format, args)|] == Render(format, args)
    ensures forall k :: |Render(format, args)| < k < str.Length ==> str[k] == old(str[k])
    ensures r == |Render(format, args)| <==>
              NoNul(Render(format, args)) && (old(str[|Render(format, args)|]) == NUL || EndsInStr(format, args))
  {
    var pos := FormatInto(str, format, args);
    assert str[str.Length - 1] == NUL;
    r := Strlen(str);
    FirstNul(str[..], Render(format, args), r);
  }

  /** strlen stops at the text's end exactly if no NUL comes earlier and one stands there. */
  lemma FirstNul(all: string, text: string, r: nat)
    requires |text| < |all| && all[..|text|] == text
    requires r < |all| && all[r] == NUL && NoNul(all[..r])
    ensures r == |text| <==> NoNul(text) && all[|text|] == NUL
  {
    if NoNul(text) {
      forall k | 0 <= k < |text| ensures all[k] != NUL { assert text[k] == all[k]; }
      assert |text| < r ==> all[..r][|text|] == all[|text|];
    }
    if r == |text| { assert all[..r] == text; }
  }

  /** "a" into a buffer of x: the text is one character, the length returned is not one. */
  method LengthMissed(str: array<char>) returns (r: nat)
    requires str.Length == 3 && str[0] == str[1] == 'x' && str[2] == NUL
    modifies str
    ensures Render("a", []) == "a" && r != 1
  {
    assert Render("a"[1..], []) == "" && Render("a", []) == ['a'] + Render("a"[1..], []);
    assert !EndsInStr("a"[1..], []);
    r := Vsprintf(str, "a", []);
  }
}
