/**
 * `UserService`: the domain operations. createUser assembles the eight request
 * fields (deriving email, ssn and dateOfBirth) and posts them through a fresh
 * HttpService; the fetch operations issue GETs and do not parse the response.
 * `Random.nextInt(90000000)` is the parameter `draw`.
 */
module Users {
  import opened Wrappers
  import opened Text
  import opened Params
  import opened Forms
  import opened Http

  // Customer type codes; documentation only, nothing checks the range.
  const CUSTOMER_TYPE_SPONSOR := 1
  const CUSTOMER_TYPE_MINOR := 2

  // Relationship codes; documentation only, nothing checks the range.
  const RELATIONSHIP_ENUM_PARENT := 1
  const RELATIONSHIP_ENUM_CHILD := 2
  const RELATIONSHIP_ENUM_OTHER := 3

  /** `HttpURLConnection.HTTP_CREATED`. */
  const HTTP_CREATED := 201

  const SSN_DRAW_BOUND := 90000000

  /**
   * Leap years of `java.util.GregorianCalendar`'s default calendar: the Julian rule
   * up to 1582 and the Gregorian rule after the cutover.
   */
  predicate IsLeapYear(y: int)
  {
    if y <= 1582 then y % 4 == 0 else (y % 4 == 0 && y % 100 != 0) || y % 400 == 0
  }

  function DaysInMonth(y: int, m: int): int
    requires 1 <= m <= 12
  {
    if m == 2 then (if IsLeapYear(y) then 29 else 28)
    else if m == 4 || m == 6 || m == 9 || m == 11 then 30
    else 31
  }

  /**
   * n has eight digits yyyyMMdd naming a day of that calendar (October 5 to 14, 1582,
   * skipped by the cutover, are not days of it).
   */
  predicate IsCalendarDate(n: int)
  {
    && 10000000 <= n <= 99999999
    && var y, m, d := n / 10000, n / 100 % 100, n % 100;
    && 1 <= m <= 12
    && 1 <= d <= DaysInMonth(y, m)
    && !(y == 1582 && m == 10 && 5 <= d <= 14)
  }

  function TwoDigits(v: int): (s: string)
    requires 0 <= v < 100
    ensures |s| == 2 && AllDigits(s) && NumberValue(s) == v
  {
    var s := [DigitChar(v / 10), DigitChar(v % 10)];
    NumberValueSnoc([], DigitChar(v / 10));
    NumberValueSnoc([DigitChar(v / 10)], DigitChar(v % 10));
    assert s == [] + [DigitChar(v / 10)] + [DigitChar(v % 10)];
    s
  }

  function FourDigits(v: int): (s: string)
    requires 0 <= v < 10000
    ensures |s| == 4 && AllDigits(s) && NumberValue(s) == v
  {
    var s := TwoDigits(v / 100) + TwoDigits(v % 100);
    NumberValueAppendTwo(TwoDigits(v / 100), TwoDigits(v % 100));
    s
  }

  /** yyyyMMdd split into its year, month and day fields. */
  lemma DateFields(n: int)
    requires 0 <= n
    ensures n == n / 10000 * 10000 + n / 100 % 100 * 100 + n % 100
  {
    var q := n / 100;
    assert n == q * 100 + n % 100;
    assert q == q / 100 * 100 + q % 100;
    assert n == q / 100 * 10000 + (q % 100 * 100 + n % 100);
    assert n / 10000 == q / 100;
  }

  /** `parseDate`: the date yyyyMMdd written as MM/dd/yyyy, month and day zero-padded. */
  function ParseDate(n: int): (r: string)
    requires IsCalendarDate(n)
    ensures |r| == 10 && r[2] == '/' && r[5] == '/'
    ensures AllDigits(r[..2]) && AllDigits(r[3..5]) && AllDigits(r[6..])
    ensures NumberValue(r[..2]) == n / 100 % 100
    ensures NumberValue(r[3..5]) == n % 100
    ensures NumberValue(r[6..]) == n / 10000
  {
    var month, day, year := n / 100 % 100, n % 100, n / 10000;
    var r := TwoDigits(month) + "/" + TwoDigits(day) + "/" + FourDigits(year);
    assert r[..2] == TwoDigits(month) && r[3..5] == TwoDigits(day) && r[6..] == FourDigits(year);
    r
  }

  /** Reads MM/dd/yyyy back into the number yyyyMMdd. */
  function DateNumber(r: string): int
    requires |r| == 10 && AllDigits(r[..2]) && AllDigits(r[3..5]) && AllDigits(r[6..])
  {
    NumberValue(r[6..]) * 10000 + NumberValue(r[..2]) * 100 + NumberValue(r[3..5])
  }

  /** The formatted date reads back as the original number, so distinct dates format differently. */
  lemma ParseDateRoundTrip(n: int)
    requires IsCalendarDate(n)
    ensures DateNumber(ParseDate(n)) == n
  {
    DateFields(n);
  }

  /** `getRandomSSN`: `random.nextInt(90000000) + 10000000`, for the draw the generator returned. */
  function RandomSsn(draw: int): (ssn: int)
    requires 0 <= draw < SSN_DRAW_BOUND
    ensures 10000000 <= ssn <= 99999999
    ensures |IntToString(ssn)| == 8
  {
    var ssn := draw + 10000000;
    EightDigits(ssn);
    ssn
  }

  /** Each eight-digit number comes from exactly one draw, so a uniform draw gives a uniform ssn. */
  lemma RandomSsnBijective(ssn: int)
    requires 10000000 <= ssn <= 99999999
    ensures 0 <= ssn - 10000000 < SSN_DRAW_BOUND && RandomSsn(ssn - 10000000) == ssn
    ensures forall draw :: 0 <= draw < SSN_DRAW_BOUND && RandomSsn(draw) == ssn ==> draw == ssn - 10000000
  {
  }

  /** `generateEmail`: the names as given, then "@example.com". */
  function GenerateEmail(firstName: string, lastName: string): (email: string)
    ensures EndsWith(email, "@example.com")
    ensures |email| == |firstName| + |lastName| + 12
    ensures email[..|firstName|] == firstName
    ensures email[|firstName|..|firstName| + |lastName|] == lastName
  {
    firstName + lastName + "@example.com"
  }

  /** Nothing is sanitised: every '@' of the names survives next to the domain's own. */
  lemma EmailKeepsAtSigns(firstName: string, lastName: string)
    ensures Count(GenerateEmail(firstName, lastName), '@') == Count(firstName, '@') + Count(lastName, '@') + 1
  {
    CountAppend(firstName, lastName, '@');
    CountAppend(firstName + lastName, "@example.com", '@');
    assert Count("@example.com", '@') == 1;
  }

  /** The path `getUserById` requests: "user/" and the decimal id. */
  function UserByIdPath(userId: int): (path: string)
    ensures |path| > 5 && path[..5] == "user/"
    ensures ParseInt(path[5..]) == Some(userId)
  {
    var path := "user/" + IntToString(userId);
    IntToStringRoundTrip(userId);
    assert path[5..] == IntToString(userId);
    path
  }

  /**
   * The path `getUserByName` requests. The names go in unencoded and the first key
   * is spelled "fistName"; the query splits into its two fields only when neither
   * name contains '&'.
   */
  function UserByNamePath(firstName: string, lastName: string): (path: string)
    ensures |path| > 5 && path[..5] == "user?"
    ensures '&' !in firstName && '&' !in lastName ==>
      Split(path[5..], '&') == ["fistName=" + firstName, "lastName=" + lastName]
  {
    var query := "fistName=" + firstName + "&lastName=" + lastName;
    var path := "user?" + query;
    assert path[5..] == query;
    if '&' !in firstName && '&' !in lastName then
      var parts := ["fistName=" + firstName, "lastName=" + lastName];
      assert '&' !in "fistName=" + firstName;
      assert '&' !in "lastName=" + lastName;
      assert Join(parts, '&') == query;
      SplitJoin(parts, '&');
      path
    else path
  }

  /** Two different name pairs that request the same path, since values are not encoded. */
  lemma UserByNamePathAmbiguous()
    ensures UserByNamePath("a&lastName=b", "c") == UserByNamePath("a", "b&lastName=c")
  {
  }

  /** The map `createUser` fills before the secret key is added. */
  function UserParams(firstName: string, lastName: string, address: string, dateOfBirth: int,
                      customerType: int, relationshipEnum: int, draw: int): (m: map<string, Value>)
    requires IsCalendarDate(dateOfBirth) && 0 <= draw < SSN_DRAW_BOUND
    ensures m.Keys == {"firstName", "lastName", "email", "ssn", "address", "dateOfBirth", "customerType", "relationshipEnum"}
  {
    map[]["firstName" := Str(firstName)]
         ["lastName" := Str(lastName)]
         ["email" := Str(GenerateEmail(firstName, lastName))]
         ["ssn" := Int(RandomSsn(draw))]
         ["address" := Str(address)]
         ["dateOfBirth" := Str(ParseDate(dateOfBirth))]
         ["customerType" := Int(customerType)]
         ["relationshipEnum" := Int(relationshipEnum)]
  }

  /** The status check of `createUser`: success exactly on 201, otherwise an error naming status and body. */
  function CreateUserOutcome(res: Result<Response, CustomException>): (r: Result<(), CustomException>)
    ensures r.Ok? <==> res.Ok? && res.value.status == HTTP_CREATED
    ensures res.Err? ==> r == Err(res.error)
    ensures res.Ok? && res.value.status != HTTP_CREATED ==>
      && r.error.message == "Fail to create new user. Response status is: " + IntToString(res.value.status)
                            + " with response body: " + res.value.body
      && EndsWith(r.error.message, res.value.body)
  {
    match res
    case Err(e) => Err(e)
    case Ok(response) =>
      if response.status != HTTP_CREATED then
        Err(CustomException("Fail to create new user. Response status is: " + IntToString(response.status)
                            + " with response body: " + response.body, None))
      else Ok(())
  }

  /** The fetch operations do not parse the body: an empty map on any response. */
  function UserRecordOf(res: Result<Response, CustomException>): (r: Result<map<string, Value>, CustomException>)
    ensures r.Ok? <==> res.Ok?
    ensures r.Ok? ==> r.value == map[]
    ensures res.Err? ==> r == Err(res.error)
  {
    match res
    case Err(e) => Err(e)
    case Ok(_) => Ok(map[])
  }

  /** The eight `put`s at the start of `createUser`, into a new HashMap. */
  method NewUserParams(firstName: string, lastName: string, address: string, dateOfBirth: int,
                       customerType: int, relationshipEnum: int, draw: int)
    returns (params: ParamMap)
    requires IsCalendarDate(dateOfBirth) && 0 <= draw < SSN_DRAW_BOUND
    ensures fresh(params) && params.Valid()
    ensures params.AsMap() == UserParams(firstName, lastName, address, dateOfBirth, customerType, relationshipEnum, draw)
  {
    params := new ParamMap();
    params.Put("firstName", Str(firstName));
    params.Put("lastName", Str(lastName));
    params.Put("email", Str(GenerateEmail(firstName, lastName)));
    params.Put("ssn", Int(RandomSsn(draw)));
    params.Put("address", Str(address));
    params.Put("dateOfBirth", Str(ParseDate(dateOfBirth)));
    params.Put("customerType", Int(customerType));
    params.Put("relationshipEnum", Int(relationshipEnum));
  }

  class UserService {
    const config: Config
    const transport: Transport
    /** Every request the HttpService instances created by this service have sent, in order. */
    ghost var sent: seq<Request>

    constructor (config: Config, transport: Transport)
      ensures this.config == config && this.transport == transport && sent == []
    {
      this.config := config;
      this.transport := transport;
      sent := [];
    }

    /**
     * `createUser`: builds the eight fields, posts them with a fresh secret key to
     * "createUser", and succeeds only on status 201.
     */
    method CreateUser(firstName: string, lastName: string, address: string, dateOfBirth: int,
                      customerType: int, relationshipEnum: int, draw: int)
      returns (r: Result<(), CustomException>)
      requires IsCalendarDate(dateOfBirth) && 0 <= draw < SSN_DRAW_BOUND
      modifies this
      ensures |sent| > |old(sent)| && sent[..|old(sent)|] == old(sent)
      ensures IsAuthRequest(config, sent[|old(sent)|])
      ensures var key := SecretKeyOf(WrapTransport(transport(sent[|old(sent)|]), "POST", config.url + "auth"));
        if key.Err? then
          sent == old(sent) + [sent[|old(sent)|]] && r == Err(key.error)
        else
          && |sent| == |old(sent)| + 2
          && IsFormPost(sent[|sent| - 1], config.url + "createUser",
                        UserParams(firstName, lastName, address, dateOfBirth, customerType, relationshipEnum, draw)
                          [SECRET_KEY := Str(key.value)])
          && r == CreateUserOutcome(WrapTransport(transport(sent[|sent| - 1]), "POST", config.url + "createUser"))
    {
      var params := NewUserParams(firstName, lastName, address, dateOfBirth, customerType, relationshipEnum, draw);
      var httpService := new HttpService(config, transport);
      var response := httpService.SendPostRequest("createUser", params);
      FormBodyEncodes(params.entries);
      assert IsFormBodyOf(FormBody(params.entries), params.AsMap());
      sent := sent + httpService.sent;
      r := CreateUserOutcome(response);
    }

    /** `getUserById`: GET "user/" + id; the response is not parsed. */
    method GetUserById(userId: int) returns (r: Result<map<string, Value>, CustomException>)
      modifies this
      ensures sent == old(sent) + [GetRequest(config.url + UserByIdPath(userId))]
      ensures r == UserRecordOf(WrapTransport(transport(sent[|sent| - 1]), "GET", config.url + UserByIdPath(userId)))
    {
      var httpService := new HttpService(config, transport);
      var response := httpService.SendGet("user/" + IntToString(userId));
      sent := sent + httpService.sent;
      r := UserRecordOf(response);
    }

    /** `getUserByName`: GET "user?fistName=" + first + "&lastName=" + last; the response is not parsed. */
    method GetUserByName(firstName: string, lastName: string) returns (r: Result<map<string, Value>, CustomException>)
      modifies this
      ensures sent == old(sent) + [GetRequest(config.url + UserByNamePath(firstName, lastName))]
      ensures r == UserRecordOf(WrapTransport(transport(sent[|sent| - 1]), "GET",
                                              config.url + UserByNamePath(firstName, lastName)))
    {
      var httpService := new HttpService(config, transport);
      var searchParams := "fistName=" + firstName + "&lastName=" + lastName;
      var response := httpService.SendGet("user?" + searchParams);
      sent := sent + httpService.sent;
      r := UserRecordOf(response);
    }
  }
}
