/** The two flag-icon routes, `iconFromCountryCode` and `iconFromMmsi`.
    The HTTP response is reduced to the outcome the handler chooses, and
    the file-readability check is the oracle `readable`. */
module Icons {
  import opened Options
  import opened JsStrings
  import opened Resolver

  const DefaultAspect := "4x3"

  /** The JSON body of a failed request. */
  datatype ErrorBody = ErrorBody(state: string, statusCode: int, message: string)

  /** What a route does: hand the file to `res.sendFile`, or answer with a
      status and an error body. */
  datatype Outcome = SendFile(path: string) | Failed(status: int, body: ErrorBody)

  /** The `aspect` query parameter, `4x3` when it is absent. Any other value
      is used unchecked. */
  function Aspect(query: Option<string>): string
  {
    query.GetOr(DefaultAspect)
  }

  /** `${base}/${aspect}/${code.toLowerCase()}.svg` */
  function IconPath(base: string, aspect: string, code: string): string
  {
    base + "/" + aspect + "/" + Lower(code) + ".svg"
  }

  /** `res.sendFile` throws a `TypeError` for a path that is not absolute
      when no `root` option is given; the throw lands in the route's `catch`. */
  predicate IsAbsolute(p: string)
  {
    |p| > 0 && p[0] == '/'
  }

  /** The 400 answer with the `FAILED` envelope. */
  function NotFound(message: string): (r: Outcome)
    ensures r.Failed? && r.status == 400
    ensures r.body.state == "FAILED" && r.body.statusCode == r.status && r.body.message == message
  {
    Failed(400, ErrorBody("FAILED", 400, message))
  }

  function CountryCodeMessage(code: string): string
  {
    "Flag for supplied country code (" + code + ") NOT found!"
  }

  function MmsiMessage(mmsi: string): string
  {
    "Flag for supplied MMSI (" + mmsi + ") not found!"
  }

  /** `GET .../country/:code`: the icon file when it is readable and its
      path is absolute, the country-code error otherwise. */
  function IconFromCountryCode(base: string, aspect: Option<string>, code: string, readable: string -> bool): (r: Outcome)
    ensures r.SendFile? <==> readable(IconPath(base, Aspect(aspect), code)) && IsAbsolute(IconPath(base, Aspect(aspect), code))
    ensures r.SendFile? ==> r.path == IconPath(base, Aspect(aspect), code)
    ensures r.Failed? ==> r == NotFound(CountryCodeMessage(code))
  {
    var flag := IconPath(base, Aspect(aspect), code);
    if readable(flag) && IsAbsolute(flag) then SendFile(flag) else NotFound(CountryCodeMessage(code))
  }

  /** `GET .../mmsi/:mmsi`: the icon of the resolved country. An unknown MID,
      a table row without a first element (`country[0].toLowerCase()` then
      throws), an unreadable file and a relative path all land in the one
      `catch`, so all give the MMSI error. */
  function IconFromMmsi(table: MidTable, base: string, aspect: Option<string>, mmsi: string, readable: string -> bool): (r: Outcome)
    ensures CountryFromMmsi(table, StringMmsi(mmsi)).None? ==> r == NotFound(MmsiMessage(mmsi))
    ensures r.SendFile? ==>
      var country := CountryFromMmsi(table, StringMmsi(mmsi));
      && country.Some? && |country.value| > 0
      && r.path == IconPath(base, Aspect(aspect), country.value[0])
      && readable(r.path) && IsAbsolute(r.path)
    ensures r.Failed? ==> r == NotFound(MmsiMessage(mmsi))
    ensures var country := CountryFromMmsi(table, StringMmsi(mmsi));
      country.Some? && |country.value| > 0 && readable(IconPath(base, Aspect(aspect), country.value[0]))
      && IsAbsolute(IconPath(base, Aspect(aspect), country.value[0]))
      ==> r.SendFile?
  {
    match CountryFromMmsi(table, StringMmsi(mmsi))
    case None => NotFound(MmsiMessage(mmsi))
    case Some(country) =>
      if |country| == 0 then NotFound(MmsiMessage(mmsi))
      else
        var flag := IconPath(base, Aspect(aspect), country[0]);
        if readable(flag) && IsAbsolute(flag) then SendFile(flag) else NotFound(MmsiMessage(mmsi))
  }

  /** For a resolvable MMSI the MMSI route serves exactly the file the
      country route serves for the resolved code, and fails exactly when
      that route fails (with its own message). */
  lemma MmsiRouteMatchesCountryRoute(table: MidTable, base: string, aspect: Option<string>, mmsi: string,
                                     readable: string -> bool, country: CountryRecord)
    requires CountryFromMmsi(table, StringMmsi(mmsi)) == Some(country) && |country| > 0
    ensures var byCode := IconFromCountryCode(base, aspect, country[0], readable);
      IconFromMmsi(table, base, aspect, mmsi, readable) ==
        if byCode.SendFile? then byCode else NotFound(MmsiMessage(mmsi))
  {
  }

  /** The served file does not depend on the case of the code; the error
      message still repeats the code as given. */
  lemma CountryCodeCaseInsensitive(base: string, aspect: Option<string>, code: string, readable: string -> bool)
    ensures var r := IconFromCountryCode(base, aspect, code, readable);
      var q := IconFromCountryCode(base, aspect, Lower(code), readable);
      (r.SendFile? <==> q.SendFile?) && (r.SendFile? ==> r == q)
  {
    LowerIsIdempotent(code);
  }

  /** The icon path is the base path's segments followed by the aspect and
      the lower-cased code with `.svg`, whenever neither contains a `/`. */
  lemma IconPathSegments(base: string, aspect: string, code: string)
    requires '/' !in aspect && '/' !in code
    ensures Split(IconPath(base, aspect, code), '/') == Split(base, '/') + [aspect, Lower(code) + ".svg"]
  {
    var file := Lower(code) + ".svg";
    LowerKeepsOtherChars(code, '/');
    assert '/' !in file;
    assert IconPath(base, aspect, code) == base + ['/'] + (aspect + ['/'] + file);
    SplitConcat(base, '/', aspect + ['/'] + file);
    SplitAfterHead(aspect, '/', file);
    SplitWithoutSeparator(file, '/');
  }

  /** With the base path never set, neither route fails outright: both
      look for the icon at `/<aspect>/<code>.svg` from the filesystem root
      and serve it when it is readable there. */
  lemma UnsetBaseServesFromRoot(table: MidTable, aspect: Option<string>, mmsi: string, code: string,
                                readable: string -> bool)
    ensures readable("/" + Aspect(aspect) + "/" + Lower(code) + ".svg") ==>
      IconFromCountryCode("", aspect, code, readable) == SendFile("/" + Aspect(aspect) + "/" + Lower(code) + ".svg")
    ensures var country := CountryFromMmsi(table, StringMmsi(mmsi));
      country.Some? && |country.value| > 0
      && readable("/" + Aspect(aspect) + "/" + Lower(country.value[0]) + ".svg") ==>
      IconFromMmsi(table, "", aspect, mmsi, readable) == SendFile("/" + Aspect(aspect) + "/" + Lower(country.value[0]) + ".svg")
  {
    assert IconPath("", Aspect(aspect), code) == "/" + Aspect(aspect) + "/" + Lower(code) + ".svg";
    var country := CountryFromMmsi(table, StringMmsi(mmsi));
    if country.Some? && |country.value| > 0 {
      assert IconPath("", Aspect(aspect), country.value[0]) == "/" + Aspect(aspect) + "/" + Lower(country.value[0]) + ".svg";
    }
  }

  /** A relative base path, such as a candidate built without an anchor,
      never serves anything: both routes answer with their error. */
  lemma RelativeBaseNeverServes(table: MidTable, base: string, aspect: Option<string>, mmsi: string,
                                code: string, readable: string -> bool)
    requires |base| > 0 && base[0] != '/'
    ensures IconFromCountryCode(base, aspect, code, readable) == NotFound(CountryCodeMessage(code))
    ensures IconFromMmsi(table, base, aspect, mmsi, readable) == NotFound(MmsiMessage(mmsi))
  {
  }

  /** Every path the routes hand to `sendFile` is an `.svg` file inside the
      requested aspect directory under the base path. */
  lemma ServedPathsAreIcons(table: MidTable, base: string, aspect: Option<string>, mmsi: string, code: string,
                            readable: string -> bool)
    ensures var r := IconFromCountryCode(base, aspect, code, readable);
      r.SendFile? ==> base + "/" + Aspect(aspect) + "/" <= r.path && r.path[|r.path| - 4..] == ".svg"
    ensures var r := IconFromMmsi(table, base, aspect, mmsi, readable);
      r.SendFile? ==> base + "/" + Aspect(aspect) + "/" <= r.path && r.path[|r.path| - 4..] == ".svg"
  {
  }
}
