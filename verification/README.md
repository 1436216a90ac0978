# Password strength checker in Dafny

This project models the core of a small password-quality tool. The tool does three things:

- It rates a password. The rating uses the password's length and four ASCII character classes: upper case, lower case, digit, and special (anything else). The result is one of `Muito Fraca`, `Fraca`, `Média` or `Forte`.
- It asks the Pwned Passwords service whether the password has appeared in known breaches. It uses the service's k-anonymity range query, which sends only five hex digits of the password's SHA-1 digest.
- It generates a random password that contains a lower-case letter, an upper-case letter and a digit. A symbol is included when symbols are enabled.

The script `proj1.py` repeats the rating rule inline. It is modelled as a function from the password to the lines it prints.

Modules, one per concept:

- `CharClasses` (`char_classes.dfy`): the four classes, which partition all characters, and the generator's alphabets.
- `PyText` (`py_text.dfy`): the parts of Python's `str` the program relies on. These are `str.split` with a one-character separator, `int(str)` with the white space it ignores at either end, and `str(n)`.
- `Strength` (`strength.dfy`): `check_password_strength`.
- `Pwned` (`pwned.dfy`): the pure part of `check_pwned_password`. It covers the digest split, the request URL, the line scan and the `(False, 0)` fallbacks.
- `Generator` (`generator.dfy`): `generate_secure_password`. The random source is left open.
- `Proj1` (`proj1.dfy`): `proj1.py`.

Things outside the model are passed in as parameters:

- SHA-1 over the UTF-8 bytes of the password is a function parameter `sha1`. It returns forty lower-case hex digits, as `hexdigest()` does. The `.upper()` that follows is modelled.
- The HTTP GET is a function parameter `fetch`. It maps the request URL to either `Reply(status, lines)` or `TransportError`.
- The k-th call of `secrets.choice(alphabet)` returns `alphabet[draw(k) % |alphabet|]` for an arbitrary `draw`. That can be any member of the alphabet.
- `SystemRandom().shuffle` is an arbitrary function that returns a rearrangement of its argument, meaning the same multiset.

Every generator property is therefore proved for every possible outcome of the random source.

Behaviour of the code worth noting:

- A malformed line stops the scan. This covers a line without exactly one `:`, or a matching line whose count is not an integer. The exception handler then returns `(False, 0)`, even when a later line would have matched. The scan is not a full pass over all records.
- The count is whatever `int()` accepts. That includes a sign, so a negative count is returned as it is. The count is not a guaranteed non-negative number.
- The classifier and the digest input both work on characters (code points), not on raw bytes. The digest input is the password's UTF-8 encoding.

## Model

| member | source | states |
|---|---|---|
| CharClasses.ClassOf | passwordStrengthChecker.py:16-19 | each character lies in exactly one of the four classes matched by the scorer's regular expressions |
| CharClasses.LowercaseAlphabet | passwordStrengthChecker.py:90 | a character is in `string.ascii_lowercase` iff the scorer counts it as lower case |
| CharClasses.UppercaseAlphabet | passwordStrengthChecker.py:91 | a character is in `string.ascii_uppercase` iff the scorer counts it as upper case |
| CharClasses.DigitAlphabet | passwordStrengthChecker.py:92 | a character is in `string.digits` iff the scorer counts it as a digit |
| CharClasses.SymbolsAreSpecial | passwordStrengthChecker.py:86 | every character of the generator's symbol string is special for the scorer |
| CharClasses.AlphanumericAlphabet | passwordStrengthChecker.py:84 | letters plus digits are exactly the characters the scorer does not count as special |
| PyText.Split | passwordStrengthChecker.py:64 | `line.split(':')` has one more part than the line has colons; no part contains a colon; joining the parts with `:` gives back the line |
| PyText.SplitJoin | passwordStrengthChecker.py:64 | splitting the join of colon-free parts gives back those parts, so `split` inverts `join` |
| PyText.LStrip | passwordStrengthChecker.py:66 | the white space `int()` skips at the front (ASCII `\t`..`\r`, space, and the non-ASCII white space; not U+001C..U+001F): the result is a suffix, everything removed is white space, and the result does not start with white space |
| PyText.RStrip | passwordStrengthChecker.py:66 | the same white space at the back: the result is a prefix, everything removed is white space, and the result does not end with white space |
| PyText.ParseStripped | passwordStrengthChecker.py:66 | once the surrounding white space is gone, `int()` succeeds only on non-empty text ending in a digit, and gives a negative value only after a leading `-` |
| PyText.ParseIntAccepted | passwordStrengthChecker.py:66 | `PyText.ParseInt`, the model of `int(count)`, succeeds only when the text without its surrounding white space is non-empty and ends in a digit, and gives a negative value only after a leading `-`; `None` stands for the `ValueError` |
| PyText.ParseUnitSeparatorRejected | passwordStrengthChecker.py:66 | `int("5\x1f")` raises: U+001F is not white space to `int()`, although `str.isspace()` accepts it |
| PyText.ParseNatToString | passwordStrengthChecker.py:66 | `int(str(n)) == n` for every non-negative `n` |
| PyText.ParseMillions | passwordStrengthChecker.py:66 | `int("3000000")` is 3000000 |
| PyText.ParsePadded | passwordStrengthChecker.py:66 | `int(" 1_0\t")` is 10: surrounding white space and an underscore between digits are accepted |
| PyText.ParseEmptyRejected | passwordStrengthChecker.py:66 | `int("")` raises |
| PyText.ParseSignOnlyRejected | passwordStrengthChecker.py:66 | `int("+")` raises |
| PyText.NatToString | proj1.py:20 | the decimal rendering of a length is non-empty, all ASCII digits, and has no leading zero |
| Strength.Search | passwordStrengthChecker.py:16-19 | the left-to-right search finds a character of the class iff one occurs anywhere in the password |
| Strength.CheckPasswordStrength | passwordStrengthChecker.py:14-30 | the length is the password's length; each flag holds iff a character of its class occurs; the length flag holds iff the length is at least 8; the criteria count is the number of true flags, at most 4 |
| Strength.CriteriaCountsClasses | passwordStrengthChecker.py:24-30 | the criteria count equals the number of distinct character classes in the password |
| Strength.EmptyPassword | passwordStrengthChecker.py:13-46 | the empty password has length 0, no flag set, criteria 0 and rating `Muito Fraca` |
| Strength.ShortIsVeryWeak | passwordStrengthChecker.py:33-34 | below eight characters the rating is `Muito Fraca`, whatever the composition |
| Strength.StrongIff | passwordStrengthChecker.py:36-37 | the rating is `Forte` iff the password has at least eight characters and all four classes occur |
| Strength.MediumIff | passwordStrengthChecker.py:39-40 | the rating is `Média` iff the password has at least eight characters and exactly three classes occur |
| Strength.WeakIff | passwordStrengthChecker.py:42-43 | the rating is `Fraca` iff the password has at least eight characters and at most two classes occur |
| Strength.AppendNeverWeakens | passwordStrengthChecker.py:33-44 | appending characters to a password never lowers its rating |
| Strength.StrongExample | passwordStrengthChecker.py:13-46 | `"Ab3$xxxx"` meets all four criteria and is `Forte` |
| Strength.WeakExample | passwordStrengthChecker.py:13-46 | `"alllowercase"` meets one criterion and is `Fraca` |
| Pwned.HexUpper | passwordStrengthChecker.py:51 | the upper-cased digest has forty upper-case hex digits, each with the same value as the digest's digit |
| Pwned.SplitDigest | passwordStrengthChecker.py:54-55 | the prefix has five digits, the suffix has thirty-five, and together they are the digest |
| Pwned.RangeUrl | passwordStrengthChecker.py:58 | the request URL is the fixed endpoint followed by the prefix and nothing else |
| Pwned.ExamineLine | passwordStrengthChecker.py:64-66 | a line that does not have exactly one colon raises |
| Pwned.ExamineRecord | passwordStrengthChecker.py:64-66 | a record `hash:count` is skipped when the hash differs from the suffix; when it is the suffix, the record gives the count if `int(count)` succeeds and raises otherwise |
| Pwned.Scan | passwordStrengthChecker.py:63-67 | the first line that is not skipped decides: a hit gives `(True, count)` and an exception gives `(False, 0)`; if every line is skipped the result is `(False, 0)`; a positive result always comes from such a first hit |
| Pwned.CheckPwnedPassword | passwordStrengthChecker.py:48-77 | a negative result is always `(False, 0)`; a positive result needs a status-200 reply to the prefix request, and its count is the one on the first record for the suffix, with every earlier line a well-formed record for another suffix |
| Pwned.OnlyPrefixLeaves | passwordStrengthChecker.py:51-59 | passwords whose digests share the first five digits send the same request; the request is the endpoint plus five characters; the result depends on the service only through its reply to that request |
| Pwned.UnavailableIsNotFound | passwordStrengthChecker.py:68-74 | a transport error or a status other than 200 gives `(False, 0)` |
| Pwned.WellFormedReply | passwordStrengthChecker.py:61-67 | for a status-200 reply of well-formed records, the result is the count of the first record for the suffix, or `(False, 0)` when there is no such record |
| Pwned.ExceptionIsNotFound | passwordStrengthChecker.py:63-77 | if a line without exactly one colon is reached before any match, the result is `(False, 0)`; the same holds for a matching record whose count is not an integer |
| Pwned.KnownBreachExample | passwordStrengthChecker.py:61-66 | a reply holding the record `SUFFIX:3000000` gives `(True, 3000000)` |
| Generator.EffectiveLength | passwordStrengthChecker.py:80-81 | the generated length is the larger of the request and 8 |
| Generator.Choice | passwordStrengthChecker.py:90-100 | each `secrets.choice` returns a member of the alphabet it is given |
| Generator.ChoiceReachesEveryMember | passwordStrengthChecker.py:90-100 | every member of the alphabet is a possible choice |
| Generator.GenerateSecurePassword | passwordStrengthChecker.py:79-105 | these hold for every random outcome: the length is max(length, 8); every character is a letter, a digit, or (only when enabled) a symbol; there is a lower-case letter, an upper-case letter and a digit; a symbol occurs iff symbols are enabled; the scorer gives 4 criteria and `Forte` with symbols, and 3 criteria and `Média` without |
| Generator.DefaultPassword | passwordStrengthChecker.py:79 | with the default arguments (`length=12`, `include_symbols=True`) the password has twelve characters, contains a symbol and is rated `Forte` |
| Generator.GeneratedProperties | passwordStrengthChecker.py:89-105 | every shuffle of a pool seeded with one lower-case letter, one upper-case letter, one digit and (when enabled) one symbol, and filled from the alphabet, keeps all the generator's guarantees |
| Generator.SameCharacters | passwordStrengthChecker.py:103 | the shuffle keeps the length, and every character on one side occurs on the other |
| Generator.SymbolFacts | passwordStrengthChecker.py:84-96 | for a password drawn from the alphabet that contains a symbol whenever symbols are enabled, symbols and special characters occur iff symbols are enabled |
| Generator.Score | passwordStrengthChecker.py:33-40 | a password of at least eight characters with a lower-case letter, an upper-case letter and a digit is `Forte` with 4 criteria if it has a special character, and `Média` with 3 criteria if it has none |
| Proj1.Report | proj1.py:19-46 | the script prints six lines for a password of at least eight characters and one line otherwise |
| Proj1.ShortReportIffVeryWeak | proj1.py:37-39 | the only output is the too-short message iff the main scorer rates the password `Muito Fraca` |
| Proj1.LongReportAgrees | proj1.py:19-46 | for eight or more characters the script prints, in order: the length, the upper, lower, digit and special present/absent lines, and `Senha: ` followed by the main scorer's rating, and every line agrees with the main scorer |
| Proj1.PrintedLengthReadsBack | proj1.py:20 | the number printed on the length line reads back as the password's length |

## Left out

- Colours (`cor`, colorama), the warning `print`s, `print_password_analysis`, `main`, argparse and `exit(0)`. These are presentation and command-line glue; only returned values and printed message lines are modelled.
- SHA-1 and UTF-8 encoding are a parameter. Any function that returns forty lower-case hex digits may stand in for them. A lone surrogate, which would make `encode('utf-8')` raise, cannot occur in a Dafny string.
- The HTTP transport, the ten-second timeout and `response.text.splitlines()`. The reply reaches the model already cut into lines. Every kind of `RequestException` is the single `TransportError`.
- The quality of the randomness from `secrets` (uniformity, unpredictability). This is a probabilistic property; the model instead quantifies over every outcome.
- PyText.ParseStripped and PyText.ParseInt: `int()` is modelled for ASCII digits only. Non-ASCII decimal digits, which Python also accepts, are not modelled.
- PyText.ParseInt: the limit of 4300 digits on `int()` of a string (Python 3.11 and later, configurable through `sys.set_int_max_str_digits`) is not modelled. A count longer than that raises in Python and gives `(False, 0)`; the model returns its value. The limit depends on interpreter settings the program does not fix.
- Generator.SameCharacters: states that the shuffle preserves length and the set of characters, not the full multiset equality it assumes of `shuffle`.
