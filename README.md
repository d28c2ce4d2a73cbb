# Admin backend: authentication and category store, modelled in Dafny

This project models the part of the admin backend that holds logic:

- **Security** (`security.dfy`, from `security.py`) covers three functions:
  - the administrator credential check (`authenticate_admin`);
  - access-token issuance (`create_access_token`), which copies the caller's claims, adds `exp` and falls back to the default lifetime for a missing or zero delta;
  - access-token verification (`verify_token`), which fails closed.

  python-jose's `jwt.encode` and `jwt.decode` are parameters of type `Jwt`. The clock is an integer `now`, in seconds.
- **AuthApi** (`main.dfy`, from `main.py`) covers the two authentication endpoints:
  - `login` implements the OAuth 2.0 password grant (section 4.3.2 of RFC 6749). It checks `grant_type` before the credentials.
  - `get_current_admin` implements the Bearer scheme (section 2.1 of RFC 6750). It checks, in this order, for a missing or empty header, for a header that does not split into two words, for a scheme that is not `bearer` in any case, and for a token that does not verify. Every 401 carries `WWW-Authenticate: Bearer`.
- **PyStr** (`pystr.dfy`) models the two Python builtins the gateway relies on: `str.split()` with no argument and `str.lower()`.
- **Courses** (`courses.dfy`, from `routers/courses.py`) models the JSON-file category store. The class `CategoryStore` holds the dictionary as a `map` field. Each handler is a method whose postcondition is the saved state. `NextId` is the fresh-id rule: `"1"` for an empty store, otherwise one more than the largest integer key.
- **Wrappers** and **Http** (`wrappers.dfy`, `http.dfy`) hold `Option`/`Result` and `HttpException` with the Bearer challenge header.

models/course.py and schemas/course.py declare a relational category/course schema, but no router shown here uses it. The router included under `/api/courses` (main.py:30) is the JSON-file store in routers/courses.py, so that is what is modelled. No course-level CRUD, category-existence check or cascade is modelled.

## Model

| member | source | states |
|---|---|---|
| Security.AuthenticateAdmin | security.py:7-14 | succeeds if and only if both the e-mail and the password equal the configured ones; on success it returns the given e-mail with is_admin true, otherwise nothing |
| Security.TokenLifetime | security.py:19-22 | the lifetime is the given delta when that delta is present and non-zero; for an absent or zero delta it is ACCESS_TOKEN_EXPIRE_MINUTES minutes |
| Security.ClaimsToEncode | security.py:18-23 | the encoded claims are the caller's claims with only "exp" added or replaced, and "exp" is now plus the token lifetime |
| Security.CreateAccessToken | security.py:16-25 | the token is the library encoding of those claims under the configured secret key and algorithm |
| Security.VerifyToken | security.py:27-36 | a decode failure gives nothing (fail-closed), and so does a missing or non-string "sub"; otherwise the result's e-mail is the "sub" claim and is_admin is true |
| Security.IssuedTokenVerifies | security.py:16-36 | given a library that honours "exp" for the {sub, exp} claim sets issued here, a token issued for an e-mail verifies to that e-mail as admin up to and including issue time plus lifetime, and fails closed after |
| PyStr.WordLength | main.py:87 | the length of the longest whitespace-free prefix: every character before it is not whitespace, and the next one, if any, is |
| PyStr.Split | main.py:87 | str.split() yields only non-empty, whitespace-free words |
| PyStr.SplitAllSpace | main.py:87-88 | a string made only of whitespace splits into no words |
| PyStr.SplitJoin | main.py:87-95 | splitting words joined by single spaces gives back exactly those words |
| PyStr.SplitGaps | main.py:87 | the whitespace split() drops is one more run than there are words; every run is whitespace, and every inner run is non-empty |
| PyStr.SplitReassembles | main.py:87 | every string equals its split words put back between those whitespace runs, so split() drops only whitespace and keeps the words whole and in order |
| PyStr.SplitInterleave | main.py:87 | words interleaved with whitespace runs, the inner ones non-empty, split back into exactly those words |
| PyStr.SkipSpaceSplit | main.py:87 | leading whitespace does not change the result of split() |
| PyStr.SplitTwoWords | main.py:87-95 | two words with any whitespace around them and a non-empty run of it between them split into exactly those two words |
| PyStr.SplitTwoShape | main.py:87-95 | a string that splits into two parts is those two words with a non-empty whitespace run between them and only whitespace around them |
| PyStr.Lower | main.py:96 | lower() keeps the length and lower-cases character by character |
| PyStr.LowerEqualsIff | main.py:96 | a string lower-cases to a lower-case ASCII word if and only if each character is that word's letter in either case |
| AuthApi.BearerSchemeIff | main.py:95-101 | the scheme is accepted if and only if it is "bearer" in any mix of cases, so "Bearer", "BEARER" and "bearer" pass and "Basic" does not |
| AuthApi.Login | main.py:45-72 | a grant_type that is present, non-empty and not "password" gives 400 whatever the credentials; with an accepted grant_type, wrong credentials give 401 with the Bearer challenge; success happens exactly with an accepted grant_type and matching credentials, and returns token_type "bearer", the user {admin e-mail, true} and a token whose claims are sub = e-mail and exp = now + ACCESS_TOKEN_EXPIRE_MINUTES |
| AuthApi.LoginToken | main.py:63-66 | the access token of a successful login is the one issued for the admin e-mail with the configured lifetime |
| AuthApi.GetCurrentAdmin | main.py:74-118 | every failure is a 401 with WWW-Authenticate: Bearer; a missing or empty header gives "Not authenticated"; a header that does not split into two words gives "Invalid authorization header format"; a non-bearer scheme gives "Invalid authentication scheme"; a token that fails verification gives "Invalid token"; otherwise the response is the verified e-mail with is_admin true |
| AuthApi.BlankHeaderIsMalformed | main.py:78-93 | a non-empty header of only whitespace counts as present, so it fails as a malformed header and not as a missing one |
| AuthApi.WellFormedHeaderDelegates | main.py:87-118 | a bearer scheme in any case and a token, with any whitespace before and after and a non-empty run of it between, are decided by token verification alone |
| AuthApi.BearerHeaderDelegates | main.py:87-118 | the header "Bearer <token>" for a whitespace-free token is decided by token verification alone |
| AuthApi.AcceptedHeaderShape | main.py:87-118 | an accepted header is exactly a bearer scheme and a verifying token, separated by a non-empty run of whitespace and surrounded only by whitespace |
| AuthApi.LoginTokenVerifies | main.py:63-66 | the login token is a single word, and it verifies to the admin up to and including issue time plus ACCESS_TOKEN_EXPIRE_MINUTES, and fails after that |
| AuthApi.LoginTokenGrantsAccess | main.py:45-118 | login followed by GET /api/auth/me with "Bearer <token>" yields {admin e-mail, true} up to and including the expiry instant and 401 "Invalid token" after it |
| Courses.Decimal | routers/courses.py:61 | str(n) is a non-empty digit string with no leading zero |
| Courses.ValueOfDecimal | routers/courses.py:61 | int(str(n)) == n |
| Courses.NextId | routers/courses.py:61 | the empty store gets "1"; a key that is not an integer makes the rule fail (ValueError), and only then; otherwise the id is str(max(int keys, 0) + 1) |
| Courses.FreshId | routers/courses.py:61-62 | an id chosen by the rule is not already a key, and its value exceeds every existing key's value |
| Courses.IdRuleIsDeterministic | routers/courses.py:61 | the rule determines exactly one id for a given key set |
| Courses.CategoryStore.constructor | routers/courses.py:28-35 | the store starts with the loaded dictionary, or the empty one when the file is missing |
| Courses.CategoryStore.GetAllCourses | routers/courses.py:43-46 | returns the whole dictionary and changes nothing |
| Courses.CategoryStore.GetCategory | routers/courses.py:48-54 | a present id returns its stored category, an absent id gives 404 "Category not found", and the store is unchanged in both cases |
| Courses.CategoryStore.CreateCategory | routers/courses.py:56-64 | succeeds exactly when every key is an integer; the new id follows the rule, was not a key before, maps to the submitted category, and every other entry is unchanged; the store grows by one; the empty store yields id "1"; the response is the id with the category's fields; integer keys stay integer keys |
| Courses.CategoryStore.UpdateCategory | routers/courses.py:66-74 | an absent id gives 404 and saves nothing; a present id has its value fully replaced and the category returned; the key set never changes |
| Courses.CategoryStore.DeleteCategory | routers/courses.py:76-84 | an absent id gives 404 and saves nothing; a present id is removed with every other entry unchanged, and the success message is returned |

## Left out

- File persistence is not modelled. `load_course_data` and `save_course_data` (routers/courses.py:28-40) are JSON file I/O, so the store is the `data` field and "saved" means the state after the method. Concurrent requests racing on the file are not modelled either.
- JWT signing and verification by python-jose (security.py:24,30) are foreign cryptography, so tamper-evidence is not proved. `Jwt.encode` and `Jwt.decode` are parameters. The end-to-end lemmas assume two things about the library, stated only for the {sub, exp} claim sets that login issues. First, `HonoursExpiry`: a token decodes to its claims until "exp" has passed, including the second of "exp" itself, as python-jose does. Section 4.1.4 of RFC 7519 would already refuse it at that second. Second, encodings contain no whitespace.
- `datetime.now` (security.py:20,22) is the integer parameter `now`. Time and durations are whole seconds, so sub-second timedelta values are not modelled.
- Security.VerifyToken: a "sub" that is present but not a string gives nothing. This stands for python-jose's decode, which rejects a non-string subject, rather than for verify_token's own code.
- Courses.NextId: int() is modelled only on plain ASCII digit strings. int() also accepts a sign, surrounding whitespace, underscores between digits and non-ASCII decimal digits. Such keys are reported as KeyNotInteger here, though Python would read them. Keys created through the API are always plain numerals (CreateCategory keeps `NumeralKeys`).
- Courses.NextId: when several keys are not integers, the key named in the error is an arbitrary one of them, not the first in dictionary order. The error is in any case an uncaught ValueError, which FastAPI turns into a 500.
- The `except ValueError` branch (main.py:103-108) is not modelled. `str.split()` and a two-element unpack of a two-element list cannot raise there.
- PyStr.Lower: only A-Z are lowered. No other character lower-cases to a letter of "bearer", so the scheme test is unaffected.
- FastAPI's form validation is not modelled. In current FastAPI, OAuth2PasswordRequestForm rejects a grant_type other than "password" with 422 before `login` runs. The model follows the handler's own 400 check.
- Framework wiring is not modelled: the app, CORS, router prefixes, `/api/health`, `/`, uvicorn startup, and Pydantic request and response validation (main.py:13-30,120-129; routers/courses.py:8).
- database.py and config.py are not modelled. Settings are the immutable `Settings` value.
- models/course.py and schemas/course.py only declare types. Title uniqueness and cascade delete are enforced by SQLAlchemy and the database, and no shown code performs relational CRUD.
