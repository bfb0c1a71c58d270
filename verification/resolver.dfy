/** MMSI -> country resolution (`countryFromMmsi`). The MID table itself is
    data the model does not fix: it is a parameter of every operation. */
module Resolver {
  import opened Options
  import opened JsStrings

  /** One table row: country code first, port of registry fourth. */
  type CountryRecord = seq<string>

  /** The immutable MID table, keyed by the string cut from an MMSI. */
  type MidTable = map<string, CountryRecord>

  /** An MMSI as the plugin receives it: a JavaScript number or a string. */
  datatype Mmsi = NumberMmsi(n: int) | StringMmsi(s: string)

  /** The string form the plugin slices: numbers are rendered in decimal. */
  function MmsiText(m: Mmsi): string
  {
    match m
    case NumberMmsi(n) => NumberToString(n)
    case StringMmsi(s) => s
  }

  /** The MID: at most the first three characters of the string form. */
  function MidOf(m: Mmsi): (mid: string)
    ensures mid <= MmsiText(m)
    ensures |mid| == if |MmsiText(m)| < 3 then |MmsiText(m)| else 3
  {
    Take(MmsiText(m), 3)
  }

  /** Looks the MID up; a miss is an ordinary `None`. */
  function CountryFromMmsi(table: MidTable, m: Mmsi): (r: Option<CountryRecord>)
    ensures r.Some? <==> MidOf(m) in table
    ensures r.Some? ==> r.value == table[MidOf(m)]
  {
    var mid := MidOf(m);
    if mid in table then Some(table[mid]) else None
  }

  /** Only the first three characters matter: whatever follows them,
      two identifiers that share them resolve alike. */
  lemma SamePrefixSameCountry(table: MidTable, a: string, b: string)
    requires |a| >= 3 && |b| >= 3 && a[..3] == b[..3]
    ensures CountryFromMmsi(table, StringMmsi(a)) == CountryFromMmsi(table, StringMmsi(b))
  {
  }

  /** A numeric MMSI resolves exactly as its decimal string does. */
  lemma NumberResolvesAsDecimal(table: MidTable, n: int)
    ensures CountryFromMmsi(table, NumberMmsi(n)) == CountryFromMmsi(table, StringMmsi(NumberToString(n)))
  {
  }

  /** For a nine-digit numeric MMSI the MID is the number formed by its
      three leading digits. */
  lemma NineDigitMid(table: MidTable, n: int)
    requires 100000000 <= n < 1000000000
    ensures MidOf(NumberMmsi(n)) == Digits(n / 1000000)
    ensures CountryFromMmsi(table, NumberMmsi(n)) == CountryFromMmsi(table, StringMmsi(Digits(n / 1000000)))
  {
    LeadingThreeOfNine(n);
    ThreeDigits(n / 1000000);
    assert MidOf(StringMmsi(Digits(n / 1000000))) == Digits(n / 1000000);
  }

  /** When every key of the table is three characters long, an identifier
      shorter than three characters never resolves. */
  lemma ShortIdentifierNotFound(table: MidTable, s: string)
    requires forall k :: k in table ==> |k| == 3
    requires |s| < 3
    ensures CountryFromMmsi(table, StringMmsi(s)) == None
  {
  }

  /** Resolution is determined by the MID alone: a table that agrees on that
      key gives the same answer. */
  lemma ResolutionDependsOnlyOnMidRow(t1: MidTable, t2: MidTable, m: Mmsi)
    requires MidOf(m) in t1 <==> MidOf(m) in t2
    requires MidOf(m) in t1 ==> t1[MidOf(m)] == t2[MidOf(m)]
    ensures CountryFromMmsi(t1, m) == CountryFromMmsi(t2, m)
  {
  }
}
