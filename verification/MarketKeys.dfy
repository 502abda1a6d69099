/** Spot market keys: parsing, printing, and the exchange's own symbol for a market. */
module MarketKeys {

  datatype SpotKey = SpotKey(base: string, term: string)

  datatype Result<T> = Ok(value: T) | InvalidArgument(what: string)

  predicate IsSeparator(c: char) {
    c == '/' || c == '-' || c == ' ' || c == '_'
  }

  /** As in the classic locale, only the letters of ASCII have another case. */
  function Lower(c: char): char {
    if 'A' <= c <= 'Z' then c - 'A' + 'a' else c
  }

  function Upper(c: char): char {
    if 'a' <= c <= 'z' then c - 'a' + 'A' else c
  }

  function Lowered(s: string): (r: string)
    ensures |r| == |s| && forall i :: 0 <= i < |s| ==> r[i] == Lower(s[i])
  {
    seq(|s|, i requires 0 <= i < |s| => Lower(s[i]))
  }

  function Uppered(s: string): (r: string)
    ensures |r| == |s| && forall i :: 0 <= i < |s| ==> r[i] == Upper(s[i])
  {
    seq(|s|, i requires 0 <= i < |s| => Upper(s[i]))
  }

  /** The place of the first separator, or the end. */
  function Split(sv: string): (k: nat)
    ensures k <= |sv| && (k < |sv| ==> IsSeparator(sv[k]))
    ensures forall i :: 0 <= i < k ==> !IsSeparator(sv[i])
  {
    if sv == "" || IsSeparator(sv[0]) then 0 else 1 + Split(sv[1..])
  }

  function Parse(sv: string): Result<SpotKey> {
    var k := Split(sv);
    if k == |sv| then InvalidArgument("trading::spot_key: invalid input [" + sv + "]")
    else Ok(SpotKey(Lowered(sv[..k]), Lowered(sv[k + 1..])))
  }

  function Print(key: SpotKey): string {
    key.base + "/" + key.term
  }

  function Native(key: SpotKey): string {
    Uppered(key.base + "-" + key.term)
  }

  // ---------- the code as loops ----------

  method ToLower(s: string) returns (r: string)
    ensures r == Lowered(s)
  {
    r := s;
    var i := 0;
    while i < |s|
      invariant 0 <= i <= |s| == |r|
      invariant forall j :: 0 <= j < |s| ==> r[j] == if j < i then Lower(s[j]) else s[j]
    {
      r := r[i := Lower(r[i])];
      i := i + 1;
    }
  }

  method ParseSpotKey(sv: string) returns (r: Result<SpotKey>)
    ensures r == Parse(sv)
  {
    var i := 0;
    while i < |sv| && !IsSeparator(sv[i])
      invariant i <= |sv|
      invariant forall j :: 0 <= j < i ==> !IsSeparator(sv[j])
    {
      i := i + 1;
    }
    assert i == Split(sv);
    if i == |sv| {
      return InvalidArgument("trading::spot_key: invalid input [" + sv + "]");
    }
    var base := ToLower(sv[..i]);
    var term := ToLower(sv[i + 1..]);
    r := Ok(SpotKey(base, term));
  }

  class Converter {
    var buffer: string

    constructor ()
      ensures buffer == ""
    {
      buffer := "";
    }

    method NativeSymbol(key: SpotKey) returns (symbol: string)
      modifies this
      ensures symbol == Native(key) && buffer == symbol
    {
      buffer := key.base + "-" + key.term;
      ghost var joined := buffer;
      var i := 0;
      while i < |buffer|
        invariant 0 <= i <= |buffer| == |joined|
        invariant forall j :: 0 <= j < |joined| ==> buffer[j] == if j < i then Upper(joined[j]) else joined[j]
      {
        buffer := buffer[i := Upper(buffer[i])];
        i := i + 1;
      }
      symbol := buffer;
    }
  }

  // ---------- round trips ----------

  /** A text with none of the four separators is an error that quotes it; any other parses. */
  lemma ParsesIff(sv: string)
    ensures Parse(sv).Ok? <==> '/' in sv || '-' in sv || ' ' in sv || '_' in sv
    ensures !Parse(sv).Ok? ==> Parse(sv) == InvalidArgument("trading::spot_key: invalid input [" + sv + "]")
  {
    if c :| c in sv && (c == '/' || c == '-' || c == ' ' || c == '_') {
      assert Split(sv) < |sv|;
    }
  }

  /** c is d, or the small letter 32 places after the capital d. */
  predicate IsLowerOf(c: char, d: char) {
    if 65 <= d as int <= 90 then c as int == d as int + 32 else c == d
  }

  /** c is d, or the capital 32 places before the small letter d. */
  predicate IsUpperOf(c: char, d: char) {
    if 97 <= d as int <= 122 then c as int == d as int - 32 else c == d
  }

  lemma LoweredSpelling(s: string)
    ensures forall i :: 0 <= i < |s| ==> IsLowerOf(Lowered(s)[i], s[i])
  {
    forall i | 0 <= i < |s| ensures IsLowerOf(Lower(s[i]), s[i]) {
    }
  }

  lemma UpperedSpelling(s: string)
    ensures forall i :: 0 <= i < |s| ==> IsUpperOf(Uppered(s)[i], s[i]) && !('a' <= Uppered(s)[i] <= 'z')
  {
    forall i | 0 <= i < |s| ensures IsUpperOf(Upper(s[i]), s[i]) && !('a' <= Upper(s[i]) <= 'z') {
    }
  }

  /** The first of the four separators ends the base and starts the term; letters are small in the key. */
  lemma ParsedSpelling(base: string, sep: char, term: string)
    requires sep in "/- _" && forall i :: 0 <= i < |base| ==> base[i] !in "/- _"
    ensures Parse(base + [sep] + term).Ok?
    ensures var key := Parse(base + [sep] + term).value;
            && |key.base| == |base| && |key.term| == |term|
            && (forall i :: 0 <= i < |base| ==> IsLowerOf(key.base[i], base[i]))
            && (forall i :: 0 <= i < |term| ==> IsLowerOf(key.term[i], term[i]))
  {
    SplitAt(base, sep, term);
    LoweredSpelling(base);
    LoweredSpelling(term);
  }

  /** A printed key is base, slash, term. */
  lemma PrintSpelling(key: SpotKey)
    ensures Print(key) == key.base + ['/'] + key.term
  {
    assert "/" == ['/'];
  }

  /** A symbol is base, dash, term in capitals: it holds no small letter, and nothing else is changed. */
  lemma NativeSpelling(key: SpotKey)
    ensures var (s, joined) := (Native(key), key.base + ['-'] + key.term);
            && |s| == |key.base| + 1 + |key.term| && s[|key.base|] == '-'
            && (forall i :: 0 <= i < |s| ==> IsUpperOf(s[i], joined[i]) && !('a' <= s[i] <= 'z'))
  {
    assert key.base + "-" + key.term == key.base + ['-'] + key.term;
    UpperedSpelling(key.base + ['-'] + key.term);
  }

  /** A key is canonical if it is lower case and its base holds no separator. */
  ghost predicate Canonical(key: SpotKey) {
    && Lowered(key.base) == key.base && Lowered(key.term) == key.term
    && forall c :: c in key.base ==> !IsSeparator(c)
  }

  lemma ParsedIsCanonical(sv: string)
    requires Parse(sv).Ok?
    ensures Canonical(Parse(sv).value)
  {
  }

  /** Splitting at a separator that is the first gives the text on either side. */
  lemma SplitAt(base: string, sep: char, term: string)
    requires IsSeparator(sep)
    ensures (forall c :: c in base ==> !IsSeparator(c)) <==> Split(base + [sep] + term) == |base|
    ensures (forall c :: c in base ==> !IsSeparator(c)) ==>
              Parse(base + [sep] + term) == Ok(SpotKey(Lowered(base), Lowered(term)))
  {
    var sv := base + [sep] + term;
    if forall c :: c in base ==> !IsSeparator(c) {
      assert forall i :: 0 <= i < |base| ==> sv[i] in base;
      assert sv[|base|] == sep;
      assert sv[..|base|] == base && sv[|base| + 1..] == term;
    }
    if Split(sv) == |base| {
      assert forall i :: 0 <= i < |base| ==> sv[i] == base[i];
    }
  }

  /** A key survives printing and parsing exactly when it is canonical. */
  lemma PrintThenParseIff(key: SpotKey)
    ensures Parse(Print(key)) == Ok(key) <==> Canonical(key)
  {
    SplitAt(key.base, '/', key.term);
    if Parse(Print(key)) == Ok(key) {
      ParsedIsCanonical(Print(key));
    }
  }

  lemma UpperThenLower(s: string)
    ensures Lowered(Uppered(s)) == Lowered(s)
    ensures (forall c :: c in Uppered(s) ==> !IsSeparator(c)) <==> (forall c :: c in s ==> !IsSeparator(c))
  {
    forall i | 0 <= i < |s|
      ensures Lower(Upper(s[i])) == Lower(s[i]) && (IsSeparator(Upper(s[i])) <==> IsSeparator(s[i]))
    {
    }
    assert forall i :: 0 <= i < |s| ==> s[i] in s && Uppered(s)[i] in Uppered(s);
  }

  lemma NativeParsesLowered(key: SpotKey)
    requires forall c :: c in key.base ==> !IsSeparator(c)
    ensures Parse(Native(key)) == Ok(SpotKey(Lowered(key.base), Lowered(key.term)))
  {
    var base, term := Uppered(key.base), Uppered(key.term);
    UpperThenLower(key.base);
    UpperThenLower(key.term);
    assert Native(key) == base + ['-'] + term;
    SplitAt(base, '-', term);
  }

  /** And the same for the exchange's symbol. */
  lemma NativeThenParseIff(key: SpotKey)
    ensures Parse(Native(key)) == Ok(key) <==> Canonical(key)
  {
    if Parse(Native(key)) == Ok(key) {
      ParsedIsCanonical(Native(key));
    }
    if Canonical(key) {
      NativeParsesLowered(key);
    }
  }

  /** Whatever text was parsed, printing the key or its symbol and parsing again gives the key. */
  lemma ParsedKeysRoundTrip(sv: string)
    requires Parse(sv).Ok?
    ensures Parse(Print(Parse(sv).value)) == Parse(sv)
    ensures Parse(Native(Parse(sv).value)) == Parse(sv)
  {
    ParsedIsCanonical(sv);
    PrintThenParseIff(Parse(sv).value);
    NativeThenParseIff(Parse(sv).value);
  }

  /** Two markets that were parsed have different symbols unless they are one. */
  lemma NativeIsInjective(k: SpotKey, l: SpotKey)
    requires Canonical(k) && Canonical(l)
    ensures Native(k) == Native(l) <==> k == l
    ensures Print(k) == Print(l) <==> k == l
  {
    NativeThenParseIff(k);
    NativeThenParseIff(l);
    PrintThenParseIff(k);
    PrintThenParseIff(l);
  }

  /** Two texts name the same market exactly when they differ in case and in the first separator only. */
  lemma {:induction false} SameMarketIff(a: string, b: string)
    requires Parse(a).Ok? && Parse(b).Ok?
    ensures Parse(a) == Parse(b) <==>
            && |a| == |b| && Split(a) == Split(b)
            && forall i :: 0 <= i < |a| && i != Split(a) ==> Lower(a[i]) == Lower(b[i])
  {
    var j, k := Split(a), Split(b);
    if Parse(a) == Parse(b) {
      assert |Lowered(a[..j])| == j && |Lowered(b[..k])| == k;
      assert |Lowered(a[j + 1..])| == |a| - j - 1 && |Lowered(b[k + 1..])| == |b| - k - 1;
      forall i | 0 <= i < |a| && i != j ensures Lower(a[i]) == Lower(b[i]) {
        assert i < j ==> Lowered(a[..j])[i] == Lowered(b[..k])[i];
        assert i > j ==> Lowered(a[j + 1..])[i - j - 1] == Lowered(b[k + 1..])[i - j - 1];
      }
    }
    if |a| == |b| && j == k && forall i :: 0 <= i < |a| && i != j ==> Lower(a[i]) == Lower(b[i]) {
      assert Lowered(a[..j]) == Lowered(b[..j]);
      assert Lowered(a[j + 1..]) == Lowered(b[j + 1..]);
    }
  }
}
