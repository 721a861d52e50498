# Druid SQL connector, modelled in Dafny

A model of `BaseDruidConnector`, a small Python client for the SQL HTTP API
of the Druid analytics database. It covers the three pieces of the class
that are pure logic:

- **Construction** (`Connector.New`): the endpoint URL is stored verbatim if
  it is a string; any other value raises `TypeError` with the message the
  class formats from the value's type.
- **Query execution** (`Connector.BuildRequest`, `Connector.HandleResponse`):
  the request sent to the endpoint, with a JSON content type and the body
  `{"query": …, "resultFormat": "object"}`. Then the reading of the decoded
  reply: an object whose `"error"` entry is truthy yields that entry, and
  every other reply is returned as it is.
- **The SQL-injection guard** (`Sanitizer.SqlInjectCheck`): a string has
  every occurrence of the eleven characters `+ ; = < > | ` ' " / \` deleted.
  A string without any of them, and any value that is not a string, is
  returned unchanged.

Python values are the datatype `Values.Value`: None, bool, int, str, list
and dict, the last as a sequence of string-keyed entries. Python truthiness
is `Values.Truthy`. `dict.get` is `Values.DictGet`. The regular expression
is an alternation of single characters, so it is modelled as membership in
the set `Sanitizer.Denylist`. `re.search` is `Sanitizer.Search` and
`re.sub(…, "", s)` is `Sanitizer.Strip`. `Sanitizer.Substitute` computes the
same substitution as a left-to-right scan.

The sanitizer is specified independently of its recursive definition.
`StripIsFilter` and `FilterIsStrip` together say that `Strip(s)` is the one
string that is a subsequence of `s`, contains no denylisted character, and
keeps every other character as many times as `s` has it.

Three consequences of the code that a reader might not expect:
- The constructor checks only `isinstance(url, str)` (base_druid_connector.py:23), so the empty string `""` is accepted as a URL.
- The `"error"` test is Python truthiness (base_druid_connector.py:60), so an `"error"` entry of `0`, `false`, `null`, `[]` or `{}` counts as no error.
- The hint `query: str` (base_druid_connector.py:42) and the docstring (base_druid_connector.py:45) are not enforced, so `BuildRequest` takes any value as the query.

## Model

| member | source | states |
|---|---|---|
| `Values.Truthy` | base_druid_connector.py:60 | a value is falsy exactly when it is None, False, 0, the empty string, the empty list or the empty dict |
| `Values.FindKey` | base_druid_connector.py:60-61 | the position found carries the key and no later entry does; nothing is found exactly when no entry has the key |
| `Values.DictGet` | base_druid_connector.py:60 | `get` yields the default when the key is absent and the value of the key's last entry otherwise |
| `Sanitizer.Search` | base_druid_connector.py:79-80 | the match is at the leftmost denylisted character; there is no match exactly when the string is clean |
| `Sanitizer.Strip` | base_druid_connector.py:75-81 | the substituted string contains no denylisted character and is no longer than the input |
| `Sanitizer.Substitute` | base_druid_connector.py:81 | a left-to-right scan that keeps each allowed character computes the same string as the substitution |
| `Sanitizer.SqlInjectCheck` | base_druid_connector.py:74-84 | a non-string is returned unchanged; a string comes back stripped of the denylist; a clean string is returned as it is |
| `Sanitizer.StripAppend` | base_druid_connector.py:81 | the substitution acts on each character independently: stripping a concatenation concatenates the stripped parts |
| `Sanitizer.StripCleanIdentity` | base_druid_connector.py:79-84 | stripping leaves a string unchanged if and only if it contains no denylisted character |
| `Sanitizer.StripShrinks` | base_druid_connector.py:79-82 | the output is strictly shorter than the input if and only if the input holds a denylisted character |
| `Sanitizer.StripIsFilter` | base_druid_connector.py:81 | the output keeps characters of the input in their order, and keeps every allowed character as often as the input has it |
| `Sanitizer.FilterIsStrip` | base_druid_connector.py:81 | any clean subsequence of the input that keeps every allowed character as often as the input has it is the output |
| `Sanitizer.SqlInjectCheckIdempotent` | base_druid_connector.py:74-84 | sanitizing an already sanitized value changes nothing |
| `Sanitizer.SqlInjectCheckExamples` | base_druid_connector.py:74-84 | `"a;b=c"` becomes `"abc"`, and `42` is returned unchanged |
| `Connector.New` | base_druid_connector.py:21-26 | construction succeeds exactly for a string, stores it verbatim, and otherwise raises TypeError naming the value's type as `str(type(x))` prints it (`Values.TypeName`) |
| `Connector.NewRoundTrip` | base_druid_connector.py:23-24 | constructing from a connector's own URL gives back that connector |
| `Connector.BuildRequest` | base_druid_connector.py:49-57 | the request goes to the stored URL with exactly one header, a JSON content type; its body has exactly two entries, `query` (the caller's query, even when that is None) followed by `resultFormat` (`"object"`) |
| `Connector.HandleResponse` | base_druid_connector.py:60-63 | a non-object, or an object without `"error"`, is returned as it is; an object's `"error"` entry is returned when truthy, and the whole object otherwise |
| `Connector.HandleResponseReportsError` | base_druid_connector.py:60-63 | whenever the result is not the reply itself, the reply is an object and the result is its truthy `"error"` entry |
| `Connector.HandleResponseExamples` | base_druid_connector.py:60-63 | `{"error": "parse error"}` yields `"parse error"`; an empty or null error yields the whole object; a list of rows is returned as it is |

## Left out

- The HTTP POST (base_druid_connector.py:57) is network I/O. The decoded reply is a parameter of `HandleResponse`, and `BuildRequest` stops at the request handed to the client.
- `json.dumps` and `json.loads` (base_druid_connector.py:57-58) are library serialisation. Only the value before encoding and the value after decoding are modelled. Transport and decode failures, which the code does not handle, are therefore not modelled either.
- `get_iso_time` (base_druid_connector.py:28-40) depends on `datetime.fromtimestamp`, the host's local timezone and float division, none of which is modelled. As written it also fails for every string input: it divides the string by 1000 before converting it to `int`, so it raises TypeError. For a value that is neither `str` nor `int` it returns a local variable that was never bound.
- Python values other than None, bool, int, str, list and dict (floats, tuples, dicts with non-string keys, instances of user classes) are not in `Value`. For the sanitizer and the constructor they would behave like any other non-string value. Druid result rows often carry floats, and a reply with a float anywhere in it is outside `Value`. In the code, such a reply passes through `HandleResponse`'s lines unchanged, except that a float `"error"` entry is judged by its truthiness (`0.0` is falsy).
- Subclasses of `str` pass the constructor's and the sanitizer's `isinstance` checks. The model has no subclasses.
- A Python `str` may contain lone surrogate code points, but a Dafny `char` cannot. The model's strings are sequences of Unicode scalar values.
- The regular-expression engine is not modelled. The pattern is a fixed alternation of eleven single characters, so the `IGNORECASE` flag has no effect on it.
- `Values.DictGet`: a decoded dict never repeats a key. The model's entry sequences can repeat one, and then the last entry wins, as it does when `json.loads` reads a JSON object with a duplicated name.
