/**
 The one-line text form of a record: Hash#unparse, which writes each field as
 a bare key, `key=value`, `key='value'` or `key="value"` depending on the
 value, and String#parse, which reads every whitespace-separated word back as
 a key set to true.
 */
module Codec {
  import opened Wrappers
  import opened Hashes
  import opened Text

  /**
   A field value, by the Ruby class Hash#unparse tells apart. `Module` is a
   Class or Module object, which prints as its name; `Unsupported` is any value
   no branch of unparse accepts (nil, an array, a hash, ...).
   */
  datatype Value =
    | Bool(b: bool)
    | Str(s: string)
    | Sym(name: string)
    | Int(i: int)
    | Float(x: real)
    | Module(name: string)
    | Unsupported

  type Record = Hash<Value>

  predicate IsDigit(c: char) {
    '0' <= c <= '9'
  }

  /** A non-empty run of decimal digits. */
  predicate IsDigits(s: string) {
    s != [] && forall i :: 0 <= i < |s| ==> IsDigit(s[i])
  }

  /** Digits without a superfluous leading zero: "0" itself, or a first digit 1-9. */
  predicate IsCanonicalDigits(s: string) {
    IsDigits(s) && (s[0] == '0' ==> |s| == 1)
  }

  /** How Integer#to_s writes an integer: canonical digits, with a minus sign exactly for negative values. */
  predicate IsNumeral(s: string) {
    || IsCanonicalDigits(s)
    || (|s| > 1 && s[0] == '-' && IsCanonicalDigits(s[1..]) && s[1] != '0')
  }

  /** The number a string of decimal digits denotes, most significant digit first. */
  function DigitsValue(s: string): nat
    requires forall i :: 0 <= i < |s| ==> IsDigit(s[i])
  {
    if s == [] then 0
    else
      assert IsDigit(s[|s| - 1]);
      10 * DigitsValue(s[..|s| - 1]) + (s[|s| - 1] as int - '0' as int)
  }

  /** The integer a numeral denotes. */
  function NumeralValue(s: string): int
    requires IsNumeral(s)
  {
    if s[0] == '-' then -(DigitsValue(s[1..]) as int) else DigitsValue(s)
  }

  /** The character of the decimal digit d. */
  function Digit(d: nat): (c: char)
    requires d < 10
    ensures IsDigit(c) && c as int - '0' as int == d
  {
    ('0' as int + d) as char
  }

  /** Decimal digits of n, most significant first: canonical, and they denote n. */
  function Decimal(n: nat): (s: string)
    ensures IsCanonicalDigits(s)
    ensures DigitsValue(s) == n
    decreases n
  {
    if n < 10 then [Digit(n)]
    else
      var s := Decimal(n / 10) + [Digit(n % 10)];
      assert s[..|s| - 1] == Decimal(n / 10);
      s
  }

  /** Integer#to_s: an optional minus sign and the decimal digits; a token and a numeral that denotes i. */
  function IntText(i: int): (s: string)
    ensures IsToken(s)
    ensures IsNumeral(s) && NumeralValue(s) == i
  {
    if i < 0 then
      var s := "-" + Decimal(-i);
      assert s[1..] == Decimal(-i);
      s
    else Decimal(i)
  }

  /** Every numeral is what Integer#to_s writes for the integer it denotes. */
  lemma IntTextOfNumeral(s: string)
    requires IsNumeral(s)
    ensures IntText(NumeralValue(s)) == s
  {
    if s[0] == '-' {
      DigitsPositive(s[1..]);
      DecimalOfDigits(s[1..]);
      assert s == "-" + s[1..];
    } else {
      DecimalOfDigits(s);
    }
  }

  /** Decimal inverts DigitsValue on canonical digits. */
  lemma {:induction false} DecimalOfDigits(s: string)
    requires IsCanonicalDigits(s)
    ensures Decimal(DigitsValue(s)) == s
    decreases |s|
  {
    if |s| > 1 {
      var p, d := s[..|s| - 1], s[|s| - 1] as int - '0' as int;
      assert IsCanonicalDigits(p) && p[0] == s[0];
      DigitsPositive(p);
      DecimalOfDigits(p);
      assert DigitsValue(s) / 10 == DigitsValue(p) && DigitsValue(s) % 10 == d;
      assert Digit(d) == s[|s| - 1];
      assert s == p + [s[|s| - 1]];
    }
  }

  /** Digits that do not start with 0 denote a positive number. */
  lemma {:induction false} DigitsPositive(s: string)
    requires IsDigits(s) && s[0] != '0'
    ensures DigitsValue(s) > 0
    decreases |s|
  {
    if |s| > 1 {
      DigitsPositive(s[..|s| - 1]);
    }
  }

  /**
   One field of Hash#unparse, with the token regex test of the string branch
   passed in as `plain`; `fmt` stands for format("%.3f", x).
   */
  function FieldWith(k: Key, v: Value, fmt: real -> string, plain: string -> bool): Option<string> {
    match v
    case Bool(b) => Some(if b then k else k + "=false")
    case Str(s) =>
      if '"' in s then Some(k + "='" + s + "'")
      else if !plain(s) then Some(k + "=\"" + s + "\"")
      else Some(k + "=" + s)
    case Sym(name) => Some(k + "=" + name)
    case Float(x) => Some(k + "=" + fmt(x))
    case Int(i) => Some(k + "=" + IntText(i))
    case Module(name) => Some(k + "=" + name)
    case Unsupported => None
  }

  /**
   One field of Hash#unparse with the quoting test applied to the whole
   string. A string is written bare exactly when it is a token, so a string
   written without quotes never holds a space, a quote or a newline (symbols
   and module names are written bare whatever they hold).
   */
  function Field(k: Key, v: Value, fmt: real -> string): (r: Option<string>)
    ensures r.None? <==> v.Unsupported?
    ensures r == Some(k) <==> v == Bool(true)
    ensures v == Bool(false) ==> r == Some(k + "=false")
    ensures v.Str? && '"' in v.s ==> r == Some(k + "='" + v.s + "'")
    ensures v.Str? && '"' !in v.s && !IsToken(v.s) ==> r == Some(k + "=\"" + v.s + "\"")
    ensures v.Str? ==> (r == Some(k + "=" + v.s) <==> IsToken(v.s))
    ensures v.Sym? || v.Module? ==> r == Some(k + "=" + v.name)
    ensures v.Int? ==> r == Some(k + "=" + IntText(v.i))
    ensures v.Float? ==> r == Some(k + "=" + fmt(v.x))
  {
    var r := FieldWith(k, v, fmt, IsToken);
    FieldLonger(k, v, fmt, IsToken);
    assert v.Str? && '"' in v.s ==> |k + "='" + v.s + "'"| != |k + "=" + v.s|;
    assert v.Str? && '"' !in v.s ==> |k + "=\"" + v.s + "\""| != |k + "=" + v.s|;
    r
  }

  /** Every field but a bare key is longer than its key. */
  lemma FieldLonger(k: Key, v: Value, fmt: real -> string, plain: string -> bool)
    ensures v != Bool(true) && FieldWith(k, v, fmt, plain).Some? ==> |FieldWith(k, v, fmt, plain).value| > |k|
  {
  }

  /** A value that is not a string holding a newline. */
  predicate SingleLine(v: Value) {
    v.Str? ==> '\n' !in v.s
  }

  /**
   One field of Hash#unparse exactly as written, with Ruby's line-anchored
   regex. It agrees with Field except on strings holding a newline.
   */
  function FieldAsWritten(k: Key, v: Value, fmt: real -> string): (r: Option<string>)
    ensures SingleLine(v) ==> r == Field(k, v, fmt)
  {
    SingleLineAgrees(v);
    FieldWith(k, v, fmt, LineAnchoredMatch)
  }

  lemma SingleLineAgrees(v: Value)
    ensures v.Str? && '\n' !in v.s ==> LineAnchoredMatch(v.s) == IsToken(v.s)
  {
    if v.Str? && '\n' !in v.s {
      LineAnchoredMatchSingleLine(v.s);
    }
  }

  /**
   The as-written encoder writes a multi-line string with no double quote
   bare when one of its lines is a token, although the string is not one (a
   string holding a double quote takes the single-quote branch first, as
   written and corrected alike); the corrected encoder
   wraps it in double quotes. Neither escapes the newline, so both fields
   carry it into the line: the difference is bare against quoted.
   */
  lemma AsWrittenMultilineUnquoted(fmt: real -> string)
    ensures var s := "ok\nrm -rf /";
      && LineAnchoredMatch(s) && !IsToken(s)
      && FieldAsWritten("cmd", Str(s), fmt) == Some("cmd" + "=" + s)
      && Field("cmd", Str(s), fmt) == Some("cmd" + "=\"" + s + "\"")
  {
    var s := "ok\nrm -rf /";
    MultilineMatches(s);
    AsWrittenDiffers("cmd", s, fmt);
  }

  /** The first line of "ok\nrm -rf /" is a token, the whole string is not, and it holds no quote. */
  lemma MultilineMatches(s: string)
    requires s == "ok\nrm -rf /"
    ensures LineAnchoredMatch(s) && !IsToken(s) && '"' !in s
  {
    assert s[2..][0] == '\n';
    assert LineLength(s[2..]) == 0;
    assert s[1..][1..] == s[2..];
    assert LineLength(s[1..]) == 1;
    assert LineLength(s) == 2;
    assert s[..2] == "ok";
    assert IsToken("ok");
    assert !IsTokenChar(s[2]);
  }

  /**
   Whenever the line-anchored regex accepts a string without a quote that is
   not a token, the encoder as written emits it bare and the corrected one
   quotes it.
   */
  lemma AsWrittenDiffers(k: Key, s: string, fmt: real -> string)
    requires LineAnchoredMatch(s) && !IsToken(s) && '"' !in s
    ensures FieldAsWritten(k, Str(s), fmt) == Some(k + "=" + s)
    ensures Field(k, Str(s), fmt) == Some(k + "=\"" + s + "\"")
  {
  }

  /** The fields of the keys ks of r, in order, leaving out the ones unparse drops. */
  function Fields(ks: seq<Key>, r: Record, fmt: real -> string): (ts: seq<string>)
    requires forall k :: k in ks ==> k in r.vals
    ensures |ts| <= |ks|
    ensures ts == [] <==> forall i :: 0 <= i < |ks| ==> r.vals[ks[i]].Unsupported?
    ensures (forall i :: 0 <= i < |ks| ==> r.vals[ks[i]] == Bool(true)) ==> ts == ks
  {
    if ks == [] then [] else Prepend(Field(ks[0], r.vals[ks[0]], fmt), Fields(ks[1..], r, fmt))
  }

  /** A field in front of a list of fields; a dropped value adds nothing. */
  function Prepend(f: Option<string>, ts: seq<string>): seq<string> {
    match f
    case Some(t) => [t] + ts
    case None => ts
  }

  lemma PrependAppend(f: Option<string>, ts: seq<string>, us: seq<string>)
    ensures Prepend(f, ts + us) == Prepend(f, ts) + us
  {
  }

  /**
   Hash#unparse: the encoded fields in key order, joined by single spaces.
   A record whose every value is dropped (in particular the empty record)
   encodes to the empty line; a record of true values encodes to its keys.
   */
  function Unparse(r: Record, fmt: real -> string): (line: string)
    requires Valid(r)
    ensures (forall k :: k in r.vals ==> r.vals[k].Unsupported?) ==> line == ""
    ensures (forall k :: k in r.vals ==> r.vals[k] == Bool(true)) ==> line == Join(r.keys)
  {
    Join(Fields(r.keys, r, fmt))
  }

  /** The fields of the keys ks of r, as Hash#unparse is written, with the line-anchored regex. */
  function FieldsAsWritten(ks: seq<Key>, r: Record, fmt: real -> string): (ts: seq<string>)
    requires forall k :: k in ks ==> k in r.vals
    ensures (forall i :: 0 <= i < |ks| ==> SingleLine(r.vals[ks[i]])) ==> ts == Fields(ks, r, fmt)
  {
    if ks == [] then [] else Prepend(FieldAsWritten(ks[0], r.vals[ks[0]], fmt), FieldsAsWritten(ks[1..], r, fmt))
  }

  /**
   Hash#unparse exactly as written. It differs from Unparse only through
   strings holding a newline: on a record without them the two lines are equal.
   */
  function UnparseAsWritten(r: Record, fmt: real -> string): (line: string)
    requires Valid(r)
    ensures (forall k :: k in r.vals ==> SingleLine(r.vals[k])) ==> line == Unparse(r, fmt)
  {
    Join(FieldsAsWritten(r.keys, r, fmt))
  }

  /** On the record {cmd: "ok\nrm -rf /"} the encoder as written gives a bare value, the corrected one a quoted value. */
  lemma UnparseMultiline(fmt: real -> string)
    ensures var s := "ok\nrm -rf /";
      var r := Hash(["cmd"], map["cmd" := Str(s)]);
      && UnparseAsWritten(r, fmt) == "cmd" + "=" + s
      && Unparse(r, fmt) == "cmd" + "=\"" + s + "\""
  {
    var s := "ok\nrm -rf /";
    var r := Hash(["cmd"], map["cmd" := Str(s)]);
    AsWrittenMultilineUnquoted(fmt);
    UnparseOne("cmd", Str(s), fmt);
    assert r.keys[1..] == [];
  }

  /** Splitting an encoded line recovers its fields when every field is a word. */
  lemma SplitUnparse(r: Record, fmt: real -> string)
    requires Valid(r)
    requires forall t :: t in Fields(r.keys, r, fmt) ==> IsWord(t)
    ensures Split(Unparse(r, fmt)) == Fields(r.keys, r, fmt)
  {
    SplitJoin(Fields(r.keys, r, fmt));
  }

  /** The fields of a concatenation of key lists are the two lists of fields, in order. */
  lemma {:induction false} FieldsAppend(a: seq<Key>, b: seq<Key>, r: Record, fmt: real -> string)
    requires forall k :: k in a + b ==> k in r.vals
    ensures Fields(a + b, r, fmt) == Fields(a, r, fmt) + Fields(b, r, fmt)
  {
    if a != [] {
      var ab := a + b;
      assert ab[0] == a[0] && ab[1..] == a[1..] + b;
      FieldsAppend(a[1..], b, r, fmt);
      PrependAppend(Field(a[0], r.vals[a[0]], fmt), Fields(a[1..], r, fmt), Fields(b, r, fmt));
    } else {
      assert a + b == b;
    }
  }

  /**
   Unparse is field by field: splitting the key order into a front and a back,
   the line is the front's line, a single space, and the back's line (a part
   with no encodable field contributes nothing, not even its space).
   */
  lemma UnparseSplitsAtKey(r: Record, n: nat, fmt: real -> string)
    requires Valid(r) && n <= |r.keys|
    ensures var front, back := Fields(r.keys[..n], r, fmt), Fields(r.keys[n..], r, fmt);
      Unparse(r, fmt) ==
        if front == [] then Join(back)
        else if back == [] then Join(front)
        else Join(front) + " " + Join(back)
  {
    assert r.keys == r.keys[..n] + r.keys[n..];
    FieldsAppend(r.keys[..n], r.keys[n..], r, fmt);
    var front, back := Fields(r.keys[..n], r, fmt), Fields(r.keys[n..], r, fmt);
    if front == [] {
      assert front + back == back;
    } else if back == [] {
      assert front + back == front;
    } else {
      JoinAppend(front, back);
    }
  }

  /** `data[w] = true` for each word w of ws, first to last, starting from {}. */
  function Tags(ws: seq<string>): (r: Record)
    ensures Valid(r)
    ensures forall k :: k in r.vals <==> k in ws
    ensures forall k :: k in r.vals ==> r.vals[k] == Bool(true)
    ensures forall i, j :: 0 <= i < j < |r.keys| ==> FirstIndex(ws, r.keys[i]) < FirstIndex(ws, r.keys[j])
    ensures Distinct(ws) ==> r.keys == ws
    decreases |ws|
  {
    if ws == [] then Empty()
    else
      var init, w := ws[..|ws| - 1], ws[|ws| - 1];
      assert ws == init + [w];
      TagsPut(init, w, Tags(init));
      Put(Tags(init), w, Bool(true))
  }

  /** The step of Tags: given its contract for init, Put of w meets it for init + [w]. */
  lemma TagsPut(init: seq<string>, w: string, p: Record)
    requires Valid(p)
    requires forall k :: k in p.vals <==> k in init
    requires forall k :: k in p.vals ==> p.vals[k] == Bool(true)
    requires forall i, j :: 0 <= i < j < |p.keys| ==> FirstIndex(init, p.keys[i]) < FirstIndex(init, p.keys[j])
    requires Distinct(init) ==> p.keys == init
    ensures Valid(Put(p, w, Bool(true)))
    ensures forall k :: k in Put(p, w, Bool(true)).vals <==> k in init + [w]
    ensures forall k :: k in Put(p, w, Bool(true)).vals ==> Put(p, w, Bool(true)).vals[k] == Bool(true)
    ensures var ks := Put(p, w, Bool(true)).keys;
      forall i, j :: 0 <= i < j < |ks| ==> FirstIndex(init + [w], ks[i]) < FirstIndex(init + [w], ks[j])
    ensures Distinct(init + [w]) ==> Put(p, w, Bool(true)).keys == init + [w]
  {
    TagsPutVals(init, w, p);
    assert forall k :: k in p.keys <==> k in init;
    assert w in p.vals <==> w in init;
    assert Put(p, w, Bool(true)).keys == if w in init then p.keys else p.keys + [w];
    TagsStep(init, w, p.keys, Put(p, w, Bool(true)).keys);
  }

  lemma TagsPutVals(init: seq<string>, w: string, p: Record)
    requires Valid(p)
    requires forall k :: k in p.vals <==> k in init
    requires forall k :: k in p.vals ==> p.vals[k] == Bool(true)
    ensures var r := Put(p, w, Bool(true));
      && Valid(r)
      && (forall k :: k in r.vals <==> k in init + [w])
      && (forall k :: k in r.vals ==> r.vals[k] == Bool(true))
  {
  }

  /** The key-order step of Tags, on key lists alone. */
  lemma TagsStep(init: seq<string>, w: string, ks: seq<string>, next: seq<string>)
    requires forall k :: k in ks <==> k in init
    requires forall i, j :: 0 <= i < j < |ks| ==> FirstIndex(init, ks[i]) < FirstIndex(init, ks[j])
    requires Distinct(init) ==> ks == init
    requires next == if w in init then ks else ks + [w]
    ensures forall i, j :: 0 <= i < j < |next| ==> FirstIndex(init + [w], next[i]) < FirstIndex(init + [w], next[j])
    ensures Distinct(init + [w]) ==> next == init + [w]
  {
    var s := init + [w];
    forall i, j | 0 <= i < j < |next|
      ensures FirstIndex(s, next[i]) < FirstIndex(s, next[j])
    {
      if j < |ks| {
        assert next[i] == ks[i] && next[j] == ks[j];
        FirstIndexAppend(init, [w], ks[i]);
        FirstIndexAppend(init, [w], ks[j]);
      } else {
        assert next[i] == ks[i] && next[j] == w;
        FirstIndexAppend(init, [w], ks[i]);
        FirstIndexAfter(init, [w], w);
      }
    }
    if Distinct(s) {
      DistinctInit(init, w);
    }
  }

  lemma DistinctInit(init: seq<string>, w: string)
    requires Distinct(init + [w])
    ensures Distinct(init) && w !in init
  {
    var s := init + [w];
    assert forall i :: 0 <= i < |init| ==> s[i] == init[i];
    assert s[|init|] == w;
  }

  /**
   String#parse: every whitespace-separated word becomes a key set to true,
   `=` included; a repeated word keeps the place of its first occurrence.
   */
  function Parse(s: string): (r: Record)
    ensures Valid(r)
    ensures forall k :: k in r.vals <==> k in Split(s)
    ensures forall k :: k in r.vals ==> r.vals[k] == Bool(true)
    ensures forall i, j :: 0 <= i < j < |r.keys| ==>
              FirstIndex(Split(s), r.keys[i]) < FirstIndex(Split(s), r.keys[j])
    ensures (forall i :: 0 <= i < |s| ==> IsSpace(s[i])) ==> r == Empty()
  {
    BlankSplitsToNothing(s);
    Tags(Split(s))
  }

  lemma BlankSplitsToNothing(s: string)
    ensures (forall i :: 0 <= i < |s| ==> IsSpace(s[i])) ==> Split(s) == []
  {
    if forall i :: 0 <= i < |s| ==> IsSpace(s[i]) {
      SplitBlank(s);
    }
  }

  /**
   Parse inverts Unparse on records of true values whose keys are words (the
   keys of a Ruby hash are distinct already): key order included.
   */
  lemma ParseUnparse(r: Record, fmt: real -> string)
    requires Valid(r)
    requires forall k :: k in r.vals ==> r.vals[k] == Bool(true)
    requires forall i :: 0 <= i < |r.keys| ==> IsWord(r.keys[i])
    ensures Parse(Unparse(r, fmt)) == r
  {
    assert Unparse(r, fmt) == Join(r.keys);
    SplitJoin(r.keys);
    TagsOfKeys(r);
  }

  /** Tagging the keys of a record of true values rebuilds the record. */
  lemma TagsOfKeys(r: Record)
    requires Valid(r)
    requires forall k :: k in r.vals ==> r.vals[k] == Bool(true)
    ensures Tags(r.keys) == r
  {
    var p := Tags(r.keys);
    SameTrueRecord(p, r);
  }

  /** Two records of true values with the same key order are equal. */
  lemma SameTrueRecord(p: Record, r: Record)
    requires Valid(p) && Valid(r) && p.keys == r.keys
    requires forall k :: k in p.vals ==> p.vals[k] == Bool(true)
    requires forall k :: k in r.vals ==> r.vals[k] == Bool(true)
    ensures p == r
  {
    assert forall k :: k in p.vals <==> k in r.vals;
    assert p.vals == r.vals;
  }

  /**
   Unparse forgets the Ruby class: false and the string "false" encode alike,
   and Parse reads `k=false` as one key, so no decoder could undo Unparse on
   every record.
   */
  lemma UnparseForgetsTypes(fmt: real -> string)
    ensures Unparse(Hash(["k"], map["k" := Bool(false)]), fmt) == "k" + "=false"
    ensures Unparse(Hash(["k"], map["k" := Str("false")]), fmt) == "k" + "=" + "false"
    ensures Parse("k=false") == Hash(["k=false"], map["k=false" := Bool(true)])
  {
    UnparseFalse("k", fmt);
    UnparseFalseString("k", fmt);
    ParseOneWord("k=false");
  }

  lemma UnparseFalse(k: Key, fmt: real -> string)
    ensures Unparse(Hash([k], map[k := Bool(false)]), fmt) == k + "=false"
  {
    UnparseOne(k, Bool(false), fmt);
  }

  lemma UnparseFalseString(k: Key, fmt: real -> string)
    ensures Unparse(Hash([k], map[k := Str("false")]), fmt) == k + "=" + "false"
  {
    assert IsToken("false");
    UnparseOne(k, Str("false"), fmt);
  }

  /** A one-field record encodes to that field, or to the empty line if it is dropped. */
  lemma UnparseOne(k: Key, v: Value, fmt: real -> string)
    ensures Unparse(Hash([k], map[k := v]), fmt) == Field(k, v, fmt).GetOr("")
  {
    var r := Hash([k], map[k := v]);
    assert r.keys[1..] == [];
  }

  /** A single word parses to the record with just that key set to true. */
  lemma ParseOneWord(w: string)
    requires IsWord(w)
    ensures Parse(w) == Hash([w], map[w := Bool(true)])
  {
    assert IsWord([w][0]);
    SplitJoin([w]);
    assert Join([w]) == w;
    var p := Tags([w]);
    assert Distinct([w]);
    SameTrueRecord(p, Hash([w], map[w := Bool(true)]));
  }
}
