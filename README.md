# CreateTestUser in Dafny

CreateTestUser is a small Java client of a user-management HTTP API. It has two parts:

- `HttpService` sends GET requests and form-encoded POST requests to a base URL read from `config.properties`.
- `UserService` uses it to create a user and to fetch users.

Every POST goes through the public `sendPostRequest(urlPart, params)`:

1. It fetches a secret key by posting the configured credentials to `auth` with `Authorization: Basic Og==`.
2. It stores that key in the caller's map under `secretKey`.
3. It posts the map as an `application/x-www-form-urlencoded` body.

The body is written by `dataToBodyPublisher`. It joins `URLEncoder.encode(key)=URLEncoder.encode(value)` pairs with `&`.

`createUser` fills eight fields: the names, the address, a derived email, a random eight-digit SSN, the date of birth reformatted from `yyyyMMdd` to `MM/dd/yyyy`, and the two type codes. It posts them to `createUser` and fails unless the status is 201. `getUserById` and `getUserByName` issue GETs on `user/<id>` and `user?fistName=<first>&lastName=<last>`, and return an empty map.

The model has seven modules:

- `Wrappers`: `Option` and `Result`.
- `Text`: decimal rendering and parsing of integers, plus split, join and count on strings.
- `UrlEncoding`: `URLEncoder.encode` with UTF-8 as `Encode`, and a strict decoder `Decode` as its partner.
- `Params`: the caller's `HashMap` as the class `ParamMap`. Its field `entries` lists the entries, with distinct keys, in iteration order. `put` is the method `Put`.
- `Forms`: the body through `FormBody` and the imperative loop `DataToBodyPublisher` that builds it. `ParseForm` reads a body back. `Encodes(body, m)` says a body reads back as distinct keys carrying exactly the rendered values of map `m`.
- `Http`: the class `HttpService`. The network is a function `transport` from a request to a response or a failure. The ghost field `sent` logs every request handed to the transport.
- `Users`: the pure helpers and the class `UserService`.

`HashMap` iteration order is unspecified, and the model never fixes it:

- `Put` promises only the new map view, `AsMap()`, and distinct keys.
- Requests are characterised by `IsFormBodyOf(body, m)`: the body is `FormBody(es)` for some listing `es` of m's entries with distinct keys. They are also characterised by `Encodes(body, m)`.

Three facts about the code shape the model:

- The query key is spelled `fistName` (src/main/java/UserService.java:76).
- The URI is `baseUrl + urlPart`, with no separator (src/main/java/HttpService.java:50, 78).
- `SimpleDateFormat` is lenient (src/main/java/UserService.java:109), so `parseDate` is described only on real calendar dates.

## Model

| member | source | states |
|---|---|---|
| UrlEncoding.EncodeChar | src/main/java/HttpService.java:134-136 | `a-z A-Z 0-9 . - * _` stay as they are, a space becomes `+`, and any other character becomes its UTF-8 bytes as `%XY` escapes; the output is 1 to 12 form-safe characters |
| UrlEncoding.PercentByte | src/main/java/HttpService.java:134-136 | a byte b is written as `%`, the upper-case hex digit of b / 16, then that of b % 16: 3 form-safe characters |
| UrlEncoding.PercentBytes | src/main/java/HttpService.java:134-136 | n bytes become 3n form-safe characters |
| UrlEncoding.Utf8 | src/main/java/HttpService.java:134-136 | a character's UTF-8 encoding has 1 to 4 bytes; the lead byte announces the length; the other bytes are continuation bytes |
| UrlEncoding.Utf8RoundTrip | src/main/java/HttpService.java:134-136 | the strict UTF-8 decoder gives back every character from its encoding |
| UrlEncoding.Encode | src/main/java/HttpService.java:134-136 | encoding a string of length n gives between n and 12n characters |
| UrlEncoding.EncodeFormSafe | src/main/java/HttpService.java:134-136 | every character of an encoding is unreserved, `+` or `%` |
| UrlEncoding.EncodeHasNoSeparators | src/main/java/HttpService.java:130-137 | an encoding never contains `&`, `=` or a space |
| UrlEncoding.EncodeUnreserved | src/main/java/HttpService.java:134 | a string made only of unreserved characters is its own encoding |
| UrlEncoding.ReadPercentBytes | src/main/java/HttpService.java:134-136 | the `%XY` escapes of a byte sequence read back as those bytes, whatever follows |
| UrlEncoding.DecodeEncodeChar | src/main/java/HttpService.java:134-136 | decoding the encoding of a character followed by any text gives that character, then the decoding of the text |
| UrlEncoding.DecodeEncode | src/main/java/HttpService.java:134-136 | decoding undoes encoding for every string |
| UrlEncoding.EncodeInjective | src/main/java/HttpService.java:134-136 | different strings have different encodings |
| Params.ParamMap.constructor | src/main/java/HttpService.java:99 | a new map is empty and has distinct keys |
| Params.ParamMap.Put | src/main/java/HttpService.java:35 | after `put`, the map sends the key to the new value and leaves every other key as it was; keys stay distinct |
| Forms.FormBodyEmpty | src/main/java/HttpService.java:129-138 | the body is empty exactly when the map is empty, so an empty map gives `""` |
| Forms.FormBodySnoc | src/main/java/HttpService.java:130-136 | one more entry appends its pair to the body, after `&` unless the body was empty |
| Forms.BuilderStep | src/main/java/HttpService.java:131-136 | one loop turn (the `&` when the builder is non-empty, then key, `=`, value) turns the body of the first i entries into the body of the first i+1 |
| Forms.DataToBodyPublisher | src/main/java/HttpService.java:128-139 | the string built by the loop is the form body of the map's entries in iteration order |
| Forms.PairHasNoAmpersand | src/main/java/HttpService.java:134-136 | a single pair contains no `&` |
| Forms.FormBodyShape | src/main/java/HttpService.java:129-138 | for N > 0 distinct keys: splitting on `&` gives exactly N pairs; pair k is `encode(key) "=" encode(value)`; there are N-1 separators; the body neither starts nor ends with `&` |
| Forms.PairOfKey | src/main/java/HttpService.java:134-136 | every key of the map appears as one pair, `encode(key) "=" encode(value.toString())` |
| Forms.ParsePairRoundTrip | src/main/java/HttpService.java:134-136 | splitting a pair on its first `=` and decoding both sides recovers key and value |
| Forms.ParsePairsRoundTrip | src/main/java/HttpService.java:130-137 | the list of pairs reads back as the entries with rendered values |
| Forms.FormBodyRoundTrip | src/main/java/HttpService.java:130-137 | splitting the body on `&` and then on `=`, then decoding, gives every entry's key and `toString()` value, in iteration order |
| Forms.StringifiedMap | src/main/java/HttpService.java:134-136 | rendering values by `toString()` keeps the keys distinct and commutes with turning the entries into a map |
| Forms.FormBodyEncodes | src/main/java/HttpService.java:128-139 | the body of a map with distinct keys reads back to exactly that map, values rendered |
| Http.WrapTransport | src/main/java/HttpService.java:54-61 | a delivered response is returned unchanged; a failure becomes a CustomException that keeps the cause and whose message ends with `baseUrl + urlPart` |
| Http.SecretKeyOf | src/main/java/HttpService.java:103 | the secret key is the auth response body verbatim, whatever the status; the auth POST's CustomException is passed on |
| Http.PlainKeyInBody | src/main/java/HttpService.java:35-37 | a key made of unreserved characters, such as `secretKey`, appears in the body as `key=` followed by the encoded value |
| Http.SecretKeyInPost | src/main/java/HttpService.java:35-37 | a form POST of a map whose `secretKey` is s has the pair `secretKey=` + encode(s) in its body |
| Http.HttpService.constructor | src/main/java/HttpService.java:20-25 | the service holds the given configuration and transport and has sent nothing yet |
| Http.HttpService.SendGet | src/main/java/HttpService.java:46-62 | sends exactly one GET of `baseUrl + urlPart` with `User-Agent: Test`; the result is that delivery wrapped as above |
| Http.HttpService.SendPostWithHeader | src/main/java/HttpService.java:73-91 | sends exactly one POST of `baseUrl + urlPart`; its body is the form body of the map; its headers are `User-Agent: Java 11 HttpClient` and then the given header; the result is the delivery wrapped |
| Http.HttpService.GetSecretKey | src/main/java/HttpService.java:98-104 | sends exactly one request: a POST to `baseUrl + "auth"` with `Authorization: Basic Og==` whose body is the form body of exactly `username` and `password` with the configured values; returns that response's body, or the wrapped failure |
| Http.HttpService.SendPostRequest | src/main/java/HttpService.java:34-38 | sends the auth request first. If it fails, the caller's map is untouched and the error is returned. Otherwise the map gains `secretKey` = the auth body, replacing any earlier value and leaving the other entries alone. One more POST to `baseUrl + urlPart` follows, with the form-urlencoded content type and the body of the updated map |
| Users.TwoDigits | src/main/java/UserService.java:116-117 | a month or day is written as two digits with value v |
| Users.FourDigits | src/main/java/UserService.java:116-117 | a year is written as four digits with value v |
| Users.ParseDate | src/main/java/UserService.java:107-118 | a valid date `yyyyMMdd` gives 10 characters with `/` at positions 2 and 5; month (n/100)%100, day n%100 and year n/10000 are written in digits |
| Users.ParseDateRoundTrip | src/main/java/UserService.java:107-118 | the formatted date reads back as the input number, so different dates format differently |
| Users.RandomSsn | src/main/java/UserService.java:86-89 | for a draw in [0, 90000000) the SSN lies in [10000000, 99999999] and has exactly 8 decimal digits |
| Users.RandomSsnBijective | src/main/java/UserService.java:86-89 | every 8-digit number comes from exactly one draw |
| Users.GenerateEmail | src/main/java/UserService.java:97-99 | the email is the first name, then the last name, then `@example.com`, with nothing removed |
| Users.EmailKeepsAtSigns | src/main/java/UserService.java:97-99 | the names are not sanitised: the email has one more `@` than the two names together |
| Users.UserByIdPath | src/main/java/UserService.java:62 | the path is `user/` followed by a decimal number that parses back as the id |
| Users.UserByNamePath | src/main/java/UserService.java:76-77 | the path is `user?` then a query that splits into `fistName=<first>` and `lastName=<last>` whenever neither name contains `&` |
| Users.UserByNamePathAmbiguous | src/main/java/UserService.java:76-77 | the names are not encoded, so two different name pairs can request the same path |
| Users.UserParams | src/main/java/UserService.java:36-44 | the map `createUser` builds has exactly the keys `firstName`, `lastName`, `email`, `ssn`, `address`, `dateOfBirth`, `customerType`, `relationshipEnum` |
| Users.NewUserParams | src/main/java/UserService.java:36-44 | the eight `put`s into a new map give a fresh map with distinct keys whose view is the map above |
| Users.CreateUserOutcome | src/main/java/UserService.java:48-51 | success exactly when the response arrived with status 201; a transport error is passed on; any other status gives a CustomException naming the status and ending with the response body |
| Users.UserRecordOf | src/main/java/UserService.java:63-64 | a fetch returns an empty map whatever the response, or passes the transport error on |
| Users.UserService.CreateUser | src/main/java/UserService.java:35-52 | sends the auth request; if it fails, nothing more is sent and its error is returned; otherwise exactly one more form POST goes to `baseUrl + "createUser"`, whose body is the form body of the eight fields plus `secretKey` (so it holds the pair `secretKey=` + encode(key)), and the status check decides the result |
| Users.UserService.GetUserById | src/main/java/UserService.java:60-65 | sends exactly one GET of `baseUrl + "user/" + id` and returns an empty map or the wrapped failure |
| Users.UserService.GetUserByName | src/main/java/UserService.java:74-80 | sends exactly one GET of `baseUrl + "user?fistName=" + first + "&lastName=" + last` and returns an empty map or the wrapped failure |

## Left out

- The network is not modelled: `HttpClient`, HTTP/2, `send` and interruption. It is the oracle `transport`, which is a pure function of the request, so sending the same request twice gets the same answer.
- Loading `config.properties` and its two RuntimeExceptions are left out. The three values are inputs to the constructors. Missing keys are not modelled. A missing `http.url` would be concatenated as `"null"`. A missing `http.user` or `http.password` would put a null value into the map, and `toString()` on it would throw NullPointerException.
- `java.util.Random` is left out: the draw of `nextInt(90000000)` is the parameter `draw` of `RandomSsn` and `CreateUser`.
- The unused Apache `CloseableHttpClient` field of `UserService` is left out.
- Users.ParseDate: requires an 8-digit valid date of Java's default calendar. That calendar uses the Julian leap rule up to 1582 and skips 1582-10-05 to 1582-10-14. Lenient rollover of out-of-range months and days, the ParseException path and time zones are not modelled.
- Users.UserService.CreateUser: requires a valid date of birth, for the same reason. It does not model the CustomException `parseDate` would raise.
- Java `char` is a UTF-16 code unit, while a Dafny `char` is a Unicode scalar value. `URLEncoder`'s treatment of unpaired surrogates is therefore not modelled: the charset replaces them with `?`, which is then escaped as `%3F`.
- `URI.create` rejects malformed URIs with IllegalArgumentException. The model does not validate URIs.
- `HashMap` iteration order is not modelled. The body is characterised for whatever order `entries` holds, and `Put` does not promise where a new key goes.
- Map keys are `Object` in Java. They are modelled as strings, since every key the code uses is a string literal. Values are strings or integers, rendered by `toString()`.
- Java `int` is 32 bits. The status, id, date and type codes are unbounded integers here, which matters nowhere because every value the code forms fits in an `int`.
- `CustomException` is not part of this model beyond a message and an optional cause. `Throwable`'s message formatting of the cause is not modelled.
