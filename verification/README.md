# logmixer in Dafny

A model of the core of logmixer, a Ruby log-routing node (`lib/logmixer.rb`),
with proofs about it. It covers three parts:

- **The one-line record format.** `Hash#unparse` writes a record as
  space-separated fields: a bare key for `true`, `key=false`, `key='v'` for a
  string holding a double quote, `key="v"` for any other string that is not a
  token of `[A-Za-z0-9:._-]`, and `key=v` for tokens, symbols, integers, floats
  and class/module names. Other numerics (Rational, Complex, …) are written
  bare as well but have no value in the model (see Left out). Values of the
  remaining, non-numeric classes (nil, arrays, hashes, …) are dropped.
  The token test in the code is `=~ /^…$/`, and Ruby anchors `^` and `$` at
  line boundaries. As written, a string with a newline and no double quote is
  therefore left bare as soon as one of its lines is a token. A string
  holding a double quote is single-quoted before the regex is consulted
  (`lib/logmixer.rb:97`). The model keeps that encoder as
  `Codec.UnparseAsWritten`, and `Codec.Unparse` quotes every string that is
  not a token as a whole (see Findings). The two agree on every record whose
  strings hold no newline. `String#parse` reads every whitespace-separated
  word back as a key set to `true`.
- **The node state.** The state is `@filters`, an insertion-ordered hash from
  filter id to its `period`, its block and its buffer, and `@sends`, a
  list of (condition, action) bindings per id.
- **The three operations on the node.** `filter` installs a fresh empty
  buffer. `send` appends bindings. `log` merges its arguments, appends the
  result to every filter's buffer and calls each binding whose condition
  holds, filter by filter and binding by binding.

Files:

- `wrappers.dfy`: `Option`, which stands for Ruby's `nil`.
- `hashes.dfy`: Ruby's insertion-ordered `Hash`. It holds `h[k] = v`,
  `merge` and `inject(:merge)`.
- `text.dfy`: `String#split`, `Array#join(" ")`, and the token regex. The
  regex comes in two versions: Ruby's line-anchored reading of `^…$`, and
  the whole-string reading.
- `codec.dfy`: `Hash#unparse` and `String#parse`, field by field.
- `mixer.dfy`: the node, `filter`, `send` and `log`.

Callbacks are opaque:

- A condition is one of three shapes, taking no argument, `buffer.last`, or
  `buffer.last` and the buffer.
- An action is a name plus its shape. Shapes are fixed when the callback is
  registered; the model does not inspect arity at call time.
- `Log` is a pure function. It returns the new node, the trace of action
  calls in the order the node makes them, and where it raised, if it did.
  `send` without a block stores `nil`. The first binding of that kind whose
  condition holds raises NoMethodError, which abandons the rest of the call.

Facts about the code that shape the model:

- `filter` stores `period` (`lib/logmixer.rb:57`) and nothing reads it, so
  `log` never looks at time: every record is appended at once.
- `filter` stores its block under `:blk` (`lib/logmixer.rb:57`), but `log`
  reads `:block` (`lib/logmixer.rb:17`), which is always nil. Every filter
  therefore buffers every record, block or not, and the block is never
  called.
- `unparse` interpolates keys and values as they are
  (`lib/logmixer.rb:94-106`). No quote, space or newline is escaped.
- `parse` sets `data[w.to_sym] = true` for every word
  (`lib/logmixer.rb:115`). It never splits at `=`, so `k=false` becomes the
  key `k=false` set to `true`, and no value is converted.

## Model

| member | source | states |
|---|---|---|
| Hashes.Merge | lib/logmixer.rb:13 | `a.merge(b)`: on a shared key b's value wins. a's keys keep their positions, and the keys only b has follow in b's order. The result has distinct keys. |
| Hashes.MergeAll | lib/logmixer.rb:13 | `datas.inject(:merge)` is nil exactly when there are no arguments. Otherwise each key gets its value from the last argument holding it. The keys are exactly the arguments' keys, ordered by first appearance across the arguments. |
| Text.Split | lib/logmixer.rb:115 | `split` gives non-empty, whitespace-free words. Concatenated, they are exactly the input's non-space characters, in order. Joined by single spaces, they are the input with leading and trailing whitespace removed and every inner run of whitespace cut to one space, so each word is a maximal run of non-space characters. |
| Text.SplitUnique | lib/logmixer.rb:115 | Any list of whitespace-free words whose single-space join is that collapsed text is the split. The split is the only such word list. |
| Text.SplitBlank | lib/logmixer.rb:115 | Text made only of whitespace splits into no words. |
| Text.SplitJoin | lib/logmixer.rb:108-115 | Splitting words joined by single spaces gives back the same words. |
| Text.LineAnchoredMatchMeaning | lib/logmixer.rb:99 | The line-by-line scan holds exactly when some span from a line start to a line end is a non-empty token. This is what `=~ /^[a-zA-Z0-9:._-]+$/` means in Ruby. |
| Text.LineAnchoredMatchSingleLine | lib/logmixer.rb:99 | On strings without a newline, the regex test means the whole string is a token. |
| Codec.Decimal | lib/logmixer.rb:105-106 | A natural number prints as decimal digits with no leading zero (just `0` for zero), and the digits read back as that number. |
| Codec.DecimalOfDigits | lib/logmixer.rb:105-106 | Every digit string without a leading zero is the print of its own value, so printing naturals is one-to-one onto those strings. |
| Codec.IntText | lib/logmixer.rb:105-106 | An integer prints as a numeral: a `-` only for negative values, then canonical digits, and the numeral's value is the integer. The text is a token, so `key=<int>` never needs quotes. |
| Codec.IntTextOfNumeral | lib/logmixer.rb:105-106 | Every numeral of that form is the print of its value, so `to_s` on integers and reading a numeral are inverse. |
| Codec.Field | lib/logmixer.rb:93-106 | A field is dropped exactly when the value has no supported class. It is the bare key exactly when the value is `true`. `false` gives `k=false`. A string holding `"` gives `k='v'`. Any other non-token string gives `k="v"`. A string is written bare exactly when it is a token. Symbols, modules, integers and formatted floats are written bare. |
| Codec.FieldAsWritten | lib/logmixer.rb:93-106 | The field encoder with Ruby's line-anchored regex. It agrees with Field whenever the value holds no newline. |
| Codec.FieldsAsWritten | lib/logmixer.rb:92-107 | The fields with the line-anchored test agree with Fields when no value among the keys holds a newline. |
| Codec.UnparseAsWritten | lib/logmixer.rb:91-109 | `unparse` as written agrees with Unparse on every record whose values hold no newline. |
| Codec.UnparseMultiline | lib/logmixer.rb:99-102 | `{cmd: "ok\nrm -rf /"}`: as written the line is `cmd=` then the bare string; with the whole-string test it is `cmd="…"`. The newline is in both. |
| Codec.AsWrittenMultilineUnquoted | lib/logmixer.rb:99 | `"ok\nrm -rf /"` passes the line-anchored test but is not a token. As written it is emitted bare; Field double-quotes it. Neither escapes the newline. |
| Codec.Fields | lib/logmixer.rb:92-107 | There are no more fields than keys. There are none exactly when every value is dropped. A record of `true` values gives exactly its keys. |
| Codec.Unparse | lib/logmixer.rb:91-109 | A record whose every value is dropped, in particular `{}`, encodes to `""`. A record of `true` values encodes to its keys joined by single spaces. |
| Codec.UnparseOne | lib/logmixer.rb:92-108 | A one-field record encodes to its field, or to `""` if that field is dropped. |
| Codec.SplitUnparse | lib/logmixer.rb:108 | When every field is a word, splitting the line gives back exactly the fields, in key order. |
| Codec.FieldsAppend | lib/logmixer.rb:92-107 | Fields are computed key by key: the fields of two key lists laid end to end are the two field lists laid end to end. |
| Codec.UnparseSplitsAtKey | lib/logmixer.rb:92-108 | Cutting the key order in two, the line is the front's line, one space, then the back's line. A part with no fields adds nothing, not even a space. |
| Codec.Tags | lib/logmixer.rb:114-116 | `data[w] = true` for each word: the keys are exactly the words and every value is `true`. Keys are ordered by each word's first occurrence, so words without repeats give the keys in word order. |
| Codec.Parse | lib/logmixer.rb:113-117 | `parse` gives a well-formed record. Its keys are exactly the words of the text, `=` included, and all values are `true`. A repeated word keeps the place of its first occurrence. Blank text gives `{}`. |
| Codec.ParseOneWord | lib/logmixer.rb:113-117 | A single word parses to the record holding just that key, set to `true`. |
| Codec.ParseUnparse | lib/logmixer.rb:91-117 | `parse(unparse(r)) == r`, key order included, for every record of `true` values whose keys are whitespace-free words. In Ruby this holds only for Symbol-keyed records: `parse` makes Symbol keys (`w.to_sym`, line 115), so `{"a" => true}` comes back as `{:a => true}`. The model does not tell the two key kinds apart. |
| Codec.UnparseForgetsTypes | lib/logmixer.rb:95-102 | `false` and the string `"false"` encode alike, and `parse` reads `k=false` as a single key. So `parse` cannot undo `unparse` outside tag records. |
| Mixer.Init | lib/logmixer.rb:4-10 | `LogMixer.new`: no filters and no bindings. |
| Mixer.LogOnInit | lib/logmixer.rb:4-33 | `log` on a new mixer raises nothing, calls nothing and leaves it with no filters and no bindings, whatever it is given. |
| Mixer.Default | lib/logmixer.rb:62 | The condition `send` uses when given none holds for every buffer. |
| Mixer.Filter | lib/logmixer.rb:56-58 | `filter` installs `{period, blk, buffer: []}` for the id and changes nothing else. An id already present keeps its place; a new one goes last. Bindings are untouched. |
| Mixer.AddBindings | lib/logmixer.rb:64-67 | Each id's binding list grows by one copy of the binding per time the id is listed, after its earlier bindings. Every other id is unchanged. |
| Mixer.Send | lib/logmixer.rb:60-68 | A single id is wrapped in a list, and a missing condition becomes the always-true default. Each id's bindings are the old ones followed by the new binding, once per time the id is listed. Filters are unchanged. |
| Mixer.Appended | lib/logmixer.rb:20-29 | After the append, `buffer.last` is the just-logged record. |
| Mixer.Fire | lib/logmixer.rb:25-31 | Over one filter's bindings, in order, it calls exactly the bindings whose condition holds, in binding order. Condition and action each get `[]`, `[buffer.last]` or `[buffer.last, buffer]` by arity. It stops at the first such binding without a block, which raises. Every call comes before that point. |
| Mixer.SweepSound | lib/logmixer.rb:15-31 | Every call made is a binding of a filtered id whose condition holds, with the right action and arguments. A raise happens only at a binding without a block whose condition holds. |
| Mixer.SweepOrdered | lib/logmixer.rb:15-31 | Calls are made by filter registration order, then by binding registration order. |
| Mixer.SweepFailureLast | lib/logmixer.rb:15-31 | Every call comes before the binding that raises. |
| Mixer.SweepFirstFailure | lib/logmixer.rb:15-31 | If any reachable binding would raise, the call raises at the first one in visiting order. |
| Mixer.SweepComplete | lib/logmixer.rb:15-31 | Every binding whose condition holds and that comes before the raise point (or with no raise at all) is called. |
| Mixer.Log | lib/logmixer.rb:12-33 | Bindings and filter order are unchanged, as is each filter's period and block. Every filter up to and including the one that raised gets the merged record appended; the others are untouched. The trace holds exactly the qualifying calls before the raise point, in visiting order, each passed the merged record. The raise is at the first binding without a block whose condition holds. |
| Mixer.LogAppendsAll | lib/logmixer.rb:15-21 | A `log` that does not raise appends the merged record to every buffer. |
| Mixer.LogTwice | lib/logmixer.rb:15-21 | Two calls of `log` without a raise extend every buffer by the two merged records, in call order. |
| Mixer.FilterThenLog | lib/logmixer.rb:56-58 | `filter` resets the buffer: the next `log` that reaches it leaves exactly the one merged record there. |
| Mixer.SendThenLog | lib/logmixer.rb:12-68 | A binding added by `send(id) { … }` with the default condition, on an id that has a filter, is called by the next `log` with that filter's appended buffer. The only exception is a raise at an earlier binding. |
| Mixer.SendUnfilteredInvisible | lib/logmixer.rb:15-23 | Bindings on ids without a filter are never consulted. Sending to such ids changes neither the trace, nor the raise point, nor the buffers of a later `log`. |
| Mixer.SweepSameWiring | lib/logmixer.rb:15-31 | The visiting of bindings depends only on the filters and on the bindings of filtered ids. |

## Left out

- `input`, `output`, `write`, `close` and the `@channels` table (`lib/logmixer.rb:35-54`, `73-87`): these open files and pipes, run reader threads and kill processes. All of that is I/O.
- `receive` (`lib/logmixer.rb:70-71`) is an empty method, and `@mtx` (`lib/logmixer.rb:9`) is never locked. There is nothing to model in either.
- Callback bodies are opaque values. Conditions are pure functions, and action calls are recorded in the trace rather than run. A callback that re-enters the node (calls `log`, `filter` or `send`) or raises on its own is not modelled. Neither is a two-argument callback changing the live `buffer` array it is passed (`lib/logmixer.rb:29-30`), for example by pruning it. Later bindings and later `log` calls would see that change; the model passes the buffer as a value.
- Ruby arity beyond the three shapes is not modelled. A negative arity indexes the argument table from the end, an arity of 3 or more passes nothing, and a condition that is not callable raises.
- Float formatting (`format("%.3f", v)`, `lib/logmixer.rb:103-104`) is a parameter `fmt: real -> string`, because floating point is out of scope.
- Numeric classes other than Integer and Float (Rational, Complex, …) have no `Value` constructor. Ruby prints them with `to_s`.
- Keys are names (`Key = string`). A symbol and a string with the same name are not told apart, and keys of other classes are not modelled. Strings are sequences of characters, with no encodings.
- Object identity is not modelled. With one argument, `log` buffers the caller's own hash object, so the caller's later changes would show in the buffer.
- Hashes.Put: its contract states only that the key sequence stays well-formed. Its effect on values is read off the callers' contracts (`Codec.Tags`, `Mixer.Filter`).
- Codec.Unparse: uses the whole-string token test, not the line-anchored one at `lib/logmixer.rb:99`. `Codec.UnparseAsWritten` is the encoder as written; the two are equal whenever no string value holds a newline. Unparse's own contract covers only records whose fields are all dropped and records of `true` values. The general field-by-field shape is stated by `Codec.Fields`, `Codec.FieldsAppend`, `Codec.UnparseOne` and `Codec.UnparseSplitsAtKey`.
- Codec.Field: quotes a string with a newline and no double quote even when one of its lines is a token. As written, such a string is left bare (`Codec.FieldAsWritten`). A string holding a double quote is single-quoted by both, since the quote test at `lib/logmixer.rb:97` comes before the regex.

## Findings

| source | as written | input that shows it | evidently intended | confidence | as-written member | corrected member |
|---|---|---|---|---|---|---|
| lib/logmixer.rb:99 | The quoting test uses `^` and `$`, which Ruby anchors at line boundaries. A string therefore counts as a plain token as soon as one of its lines is one. | `{cmd: "ok\nrm -rf /"}` is emitted bare, as `cmd=ok`, a newline, `rm -rf /`. The whole-string test emits it double-quoted, as `cmd="ok`, a newline, `rm -rf /"`. Neither version escapes the newline. The difference is only that the bare form is not marked as one quoted value. | Write a string bare only when the whole string is a token (`\A…\z`), and quote it otherwise. | high; not executed | Codec.FieldAsWritten, Codec.AsWrittenMultilineUnquoted, Codec.UnparseAsWritten, Codec.UnparseMultiline | Codec.Field, Codec.Unparse |
