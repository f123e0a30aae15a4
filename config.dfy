/**
 Start-up of the relay (`main` in __main__.py, lines 8-24): the settings
 `PORT`, `STREAM_SIZE` ("WxH") and `STREAM_IPS` (a comma list of
 `host:port`) are read from the environment and parsed, every host is
 resolved, one ingestor is created per entry, and the ingestors are stored
 in a dictionary under the key `host:port`.

 The environment is a map, `gethostbyname` is the parameter `resolve` (None:
 it raised), and `int()` accepts decimal digits only.
 */
module Config {
  import opened Common
  import opened Framing
  import opened Ingestion

  // ---------------------------------------------------------------------------
  // `str.split` with a one-character separator, and its inverse.

  /** `s.split(sep)`: the pieces between separators, at least one, none holding `sep`. */
  function Split(s: string, sep: char): (r: seq<string>)
    ensures |r| >= 1
    ensures forall i :: 0 <= i < |r| ==> sep !in r[i]
    decreases |s|
  {
    if s == [] then [""]
    else if s[0] == sep then [""] + Split(s[1..], sep)
    else
      var r := Split(s[1..], sep);
      [[s[0]] + r[0]] + r[1..]
  }

  /** `sep.join(parts)`. */
  function Join(parts: seq<string>, sep: char): string
    requires |parts| >= 1
    decreases |parts|
  {
    if |parts| == 1 then parts[0] else parts[0] + [sep] + Join(parts[1..], sep)
  }

  /** Splitting loses nothing: joining the pieces gives the string back. */
  lemma {:induction false} SplitJoin(s: string, sep: char)
    ensures Join(Split(s, sep), sep) == s
    decreases |s|
  {
    if s != [] {
      SplitJoin(s[1..], sep);
      var r := Split(s[1..], sep);
      if s[0] == sep {
        assert ([""] + r)[1..] == r;
        assert s == [sep] + s[1..];
      } else {
        var q := [[s[0]] + r[0]] + r[1..];
        assert q[1..] == r[1..];
        if |r| == 1 {
          assert s == [s[0]] + r[0];
        } else {
          assert Join(r, sep) == r[0] + [sep] + Join(r[1..], sep);
          assert s == [s[0]] + (r[0] + [sep] + Join(r[1..], sep));
        }
      }
    }
  }

  /** Pieces free of the separator are what splitting their join gives back. */
  lemma {:induction false} JoinSplit(parts: seq<string>, sep: char)
    requires |parts| >= 1 && forall i :: 0 <= i < |parts| ==> sep !in parts[i]
    ensures Split(Join(parts, sep), sep) == parts
    decreases |parts|, |parts[0]|
  {
    if |parts[0]| > 0 {
      var p := parts[0];
      var tailParts := [p[1..]] + parts[1..];
      assert tailParts[1..] == parts[1..];
      forall i | 0 <= i < |tailParts|
        ensures sep !in tailParts[i]
      {
        if i == 0 {
          assert forall c :: c in p[1..] ==> c in p;
        } else {
          assert tailParts[i] == parts[i];
        }
      }
      JoinSplit(tailParts, sep);
      var s := Join(parts, sep);
      if |parts| == 1 {
        assert s == p && s[1..] == Join(tailParts, sep);
      } else {
        assert s[1..] == Join(tailParts, sep);
      }
      assert s[0] == p[0] && p[0] != sep;
      assert [p[0]] + p[1..] == p;
      assert [[p[0]] + p[1..]] + parts[1..] == parts;
    } else if |parts| == 1 {
    } else {
      var s := Join(parts, sep);
      assert s == [sep] + Join(parts[1..], sep);
      assert s[1..] == Join(parts[1..], sep);
      JoinSplit(parts[1..], sep);
      assert [""] + parts[1..] == parts;
    }
  }

  // ---------------------------------------------------------------------------
  // `int()` on decimal digits, and `str()` of a natural number.

  predicate IsDigit(c: char)
  {
    '0' <= c <= '9'
  }

  predicate AllDigits(s: string)
  {
    forall i :: 0 <= i < |s| ==> IsDigit(s[i])
  }

  /** The number the digit string `s` spells, most significant digit first. */
  function DigitsValue(s: string): nat
    requires AllDigits(s)
    decreases |s|
  {
    if s == [] then 0 else DigitsValue(s[..|s| - 1]) * 10 + (s[|s| - 1] as int - '0' as int)
  }

  /** `int(s)`: None where it raises, that is, unless s is a non-empty string of digits. */
  function ParseNat(s: string): Option<nat>
  {
    if s != [] && AllDigits(s) then Some(DigitsValue(s)) else None
  }

  function DigitChar(d: nat): char
    requires d < 10
  {
    ('0' as int + d) as char
  }

  /** `str(n)`: its decimal digits, with no leading zero. */
  function NatToString(n: nat): (s: string)
    ensures s != [] && AllDigits(s)
    ensures |s| > 1 ==> s[0] != '0'
    decreases n
  {
    if n < 10 then [DigitChar(n)] else NatToString(n / 10) + [DigitChar(n % 10)]
  }

  /** `int(str(n)) == n`. */
  lemma {:induction false} ParseNatToString(n: nat)
    ensures ParseNat(NatToString(n)) == Some(n)
    decreases n
  {
    var s := NatToString(n);
    assert s[|s| - 1] as int - '0' as int == n % 10;
    if n >= 10 {
      ParseNatToString(n / 10);
      assert s[..|s| - 1] == NatToString(n / 10);
    } else {
      assert s[..|s| - 1] == [];
      assert DigitsValue(s) == DigitsValue([]) * 10 + n;
    }
  }

  /** A decimal string holds neither a separator nor a letter. */
  lemma DigitsHoldNo(s: string, c: char)
    requires AllDigits(s) && !IsDigit(c)
    ensures c !in s
  {
  }

  // ---------------------------------------------------------------------------
  // The three settings (lines 8-18).

  /** Why `main` raises before it starts the relay. */
  datatype ConfigError =
    | MissingVariable(name: string)   // `environ[name]` raised KeyError
    | NotAnInteger(text: string)      // `int(text)` raised ValueError
    | MissingField(field: string)     // a split gave too few pieces: IndexError
    | Unresolved(host: string)        // `gethostbyname(host)` raised

  /** `int(environ["PORT"])` (line 10). */
  function ParsePort(s: string): Result<nat, ConfigError>
  {
    match ParseNat(s)
    case None => Err(NotAnInteger(s))
    case Some(n) => Ok(n)
  }

  /** `output_size` (lines 12-13): the first two `x` pieces as integers,
      converted left to right; further pieces are ignored. */
  function ParseSize(s: string): Result<(nat, nat), ConfigError>
  {
    var parts := Split(s, 'x');
    match ParseNat(parts[0])
    case None => Err(NotAnInteger(parts[0]))
    case Some(w) =>
      if |parts| < 2 then Err(MissingField(s))
      else match ParseNat(parts[1])
        case None => Err(NotAnInteger(parts[1]))
        case Some(h) => Ok((w, h))
  }

  /** One field of `STREAM_IPS` (lines 16-18): the host before the first `:`
      is resolved first, then the piece after it is read as the port. */
  function ParseEntry(field: string, resolve: string -> Option<string>): Result<(string, nat), ConfigError>
  {
    var info := Split(field, ':');
    match resolve(info[0])
    case None => Err(Unresolved(info[0]))
    case Some(ip) =>
      if |info| < 2 then Err(MissingField(field))
      else match ParseNat(info[1])
        case None => Err(NotAnInteger(info[1]))
        case Some(port) => Ok((ip, port))
  }

  /** The fields in order: every entry, or the error of the first field that raises. */
  function Entries(fields: seq<string>, resolve: string -> Option<string>): Result<seq<(string, nat)>, ConfigError>
    decreases |fields|
  {
    if fields == [] then Ok([])
    else match ParseEntry(fields[0], resolve)
      case Err(e) => Err(e)
      case Ok(entry) =>
        match Entries(fields[1..], resolve)
        case Err(e) => Err(e)
        case Ok(rest) => Ok([entry] + rest)
  }

  /** The list `webcam_streams`: one entry per field, each field's own parse,
      and an error only from a field that raises, every earlier field parsing. */
  lemma {:induction false} EntriesAt(fields: seq<string>, resolve: string -> Option<string>)
    ensures Entries(fields, resolve).Ok? <==> forall i :: 0 <= i < |fields| ==> ParseEntry(fields[i], resolve).Ok?
    ensures Entries(fields, resolve).Ok? ==>
      var es := Entries(fields, resolve).value;
      |es| == |fields| && forall i :: 0 <= i < |fields| ==> es[i] == ParseEntry(fields[i], resolve).value
    ensures Entries(fields, resolve).Err? ==>
      exists i :: 0 <= i < |fields| && ParseEntry(fields[i], resolve).Err?
        && ParseEntry(fields[i], resolve).error == Entries(fields, resolve).error
        && forall j :: 0 <= j < i ==> ParseEntry(fields[j], resolve).Ok?
    decreases |fields|
  {
    if fields != [] {
      EntriesAt(fields[1..], resolve);
      assert forall i :: 1 <= i < |fields| ==> fields[i] == fields[1..][i - 1];
      if ParseEntry(fields[0], resolve).Ok? && Entries(fields[1..], resolve).Err? {
        var i :| 0 <= i < |fields[1..]| && ParseEntry(fields[1..][i], resolve).Err?
          && ParseEntry(fields[1..][i], resolve).error == Entries(fields[1..], resolve).error
          && forall j :: 0 <= j < i ==> ParseEntry(fields[1..][j], resolve).Ok?;
        assert forall j :: 1 <= j < i + 1 ==> ParseEntry(fields[j], resolve).Ok?;
      }
      if !ParseEntry(fields[0], resolve).Ok? {
        assert ParseEntry(fields[0], resolve).Err?;
      }
    }
  }

  /**
   Building `webcam_streams` (lines 15-18) by appending one entry per comma
   field; the first field that raises ends the loop with its error.
   */
  method StreamAddresses(ips: string, resolve: string -> Option<string>)
    returns (r: Result<seq<(string, nat)>, ConfigError>)
    ensures r == Entries(Split(ips, ','), resolve)
  {
    var fields := Split(ips, ',');
    var streams: seq<(string, nat)> := [];
    var i := 0;
    assert fields[0..] == fields;
    assert streams + [] == [];
    PrependNothing(Entries(fields, resolve));
    while i < |fields|
      invariant 0 <= i <= |fields|
      invariant Entries(fields, resolve) == Prepend(streams, Entries(fields[i..], resolve))
    {
      var info := ParseEntry(fields[i], resolve);
      assert fields[i..][1..] == fields[i + 1..];
      if info.Err? {
        r := Err(info.error);
        return;
      }
      PrependTwice(streams, info.value, Entries(fields[i + 1..], resolve));
      streams := streams + [info.value];
      i := i + 1;
    }
    assert streams + [] == streams;
    r := Ok(streams);
  }

  /** The entries parsed so far in front of what the rest of the fields give. */
  function Prepend(done: seq<(string, nat)>, rest: Result<seq<(string, nat)>, ConfigError>): Result<seq<(string, nat)>, ConfigError>
  {
    match rest
    case Err(e) => Err(e)
    case Ok(es) => Ok(done + es)
  }

  lemma PrependNothing(rest: Result<seq<(string, nat)>, ConfigError>)
    ensures Prepend([], rest) == rest
  {
    if rest.Ok? {
      assert [] + rest.value == rest.value;
    }
  }

  lemma PrependTwice(done: seq<(string, nat)>, e: (string, nat), rest: Result<seq<(string, nat)>, ConfigError>)
    ensures Prepend(done, match rest case Err(x) => Err(x) case Ok(es) => Ok([e] + es)) == Prepend(done + [e], rest)
  {
    if rest.Ok? {
      AppendAssoc(done, [e], rest.value);
    }
  }

  // ---------------------------------------------------------------------------
  // The dictionary of ingestors (lines 20-24).

  /** `webcam_stream[0] + ":" + str(webcam_stream[1])`. */
  function StreamKey(entry: (string, nat)): string
  {
    entry.0 + ":" + NatToString(entry.1)
  }

  /** Hosts without a colon (as `gethostbyname` returns them) give distinct
      entries distinct keys: the key determines host and port. */
  lemma KeyInjective(a: (string, nat), b: (string, nat))
    requires ':' !in a.0 && ':' !in b.0
    ensures StreamKey(a) == StreamKey(b) <==> a == b
  {
    if StreamKey(a) == StreamKey(b) {
      KeySplits(a);
      KeySplits(b);
      ParseNatToString(a.1);
      ParseNatToString(b.1);
    }
  }

  /** Splitting a key at `:` gives back the host and the port's digits. */
  lemma KeySplits(e: (string, nat))
    requires ':' !in e.0
    ensures Split(StreamKey(e), ':') == [e.0, NatToString(e.1)]
  {
    DigitsHoldNo(NatToString(e.1), ':');
    JoinSplit([e.0, NatToString(e.1)], ':');
    assert Join([e.0, NatToString(e.1)], ':') == StreamKey(e);
  }

  /** The dictionary after `streams[key] = tsk` for each entry in order, the
      entry at index i storing `tasks[i]`. */
  function KeyMap<T>(entries: seq<(string, nat)>, tasks: seq<T>): map<string, T>
    requires |entries| == |tasks|
    decreases |entries|
  {
    if entries == [] then map[]
    else
      var n := |entries| - 1;
      KeyMap(entries[..n], tasks[..n])[StreamKey(entries[n]) := tasks[n]]
  }

  /** The dictionary's keys are the entries' keys. */
  lemma {:induction false} KeyMapKeys<T>(entries: seq<(string, nat)>, tasks: seq<T>)
    requires |entries| == |tasks|
    ensures forall i :: 0 <= i < |entries| ==> StreamKey(entries[i]) in KeyMap(entries, tasks)
    ensures forall k :: k in KeyMap(entries, tasks) ==> exists i :: 0 <= i < |entries| && StreamKey(entries[i]) == k
    decreases |entries|
  {
    if entries != [] {
      var n := |entries| - 1;
      KeyMapKeys(entries[..n], tasks[..n]);
      assert forall i :: 0 <= i < n ==> entries[..n][i] == entries[i];
    }
  }

  /** A key holds the ingestor of the last entry with that key: later entries overwrite earlier ones. */
  lemma {:induction false} KeyMapLastWins<T>(entries: seq<(string, nat)>, tasks: seq<T>, i: nat)
    requires |entries| == |tasks| && i < |entries|
    requires forall j :: i < j < |entries| ==> StreamKey(entries[j]) != StreamKey(entries[i])
    ensures StreamKey(entries[i]) in KeyMap(entries, tasks)
    ensures KeyMap(entries, tasks)[StreamKey(entries[i])] == tasks[i]
    decreases |entries|
  {
    var n := |entries| - 1;
    if i < n {
      assert forall j :: i < j < n ==> entries[..n][j] == entries[j];
      KeyMapLastWins(entries[..n], tasks[..n], i);
      assert entries[..n][i] == entries[i] && tasks[..n][i] == tasks[i];
    }
  }

  /** With distinct keys every ingestor stays in the dictionary, under its own key. */
  lemma DistinctKeysKeepAll<T>(entries: seq<(string, nat)>, tasks: seq<T>, i: nat)
    requires |entries| == |tasks| && i < |entries|
    requires forall a, b :: 0 <= a < b < |entries| ==> StreamKey(entries[a]) != StreamKey(entries[b])
    ensures StreamKey(entries[i]) in KeyMap(entries, tasks) && KeyMap(entries, tasks)[StreamKey(entries[i])] == tasks[i]
  {
    KeyMapLastWins(entries, tasks, i);
  }

  /** A new ingestor `ReadWebcamOverIP(output_size, entry)`: running, with no
      socket yet and showing the offline image. */
  ghost predicate Started(t: Ingestor, entry: (string, nat), outputSize: (nat, nat))
    reads t
  {
    t.Valid() && t.host == entry.0 && t.port == entry.1 && t.outputSize == outputSize
    && t.running && t.link == Closed && t.imgToShow == OfflineImage(outputSize)
  }

  /**
   The loop of lines 21-24: an ingestor `ReadWebcamOverIP(output_size,
   webcam_stream)` per entry, in order, each stored under its entry's key.
   `tasks` are the ingestors created; `headerWidth`, `order` and `unpickle`
   are the platform's `struct` format and `pickle.loads`.
   */
  method StartIngestors(outputSize: (nat, nat), entries: seq<(string, nat)>, headerWidth: nat, order: ByteOrder,
                        unpickle: seq<byte> -> Option<(nat, nat)>)
    returns (streams: map<string, Ingestor>, ghost tasks: seq<Ingestor>)
    requires headerWidth > 0
    ensures |tasks| == |entries| && streams == KeyMap(entries, tasks)
    ensures forall i :: 0 <= i < |tasks| ==> fresh(tasks[i]) && Started(tasks[i], entries[i], outputSize)
    ensures forall i, j :: 0 <= i < j < |tasks| ==> tasks[i] != tasks[j]
  {
    streams, tasks := map[], [];
    var i := 0;
    while i < |entries|
      invariant 0 <= i <= |entries| && |tasks| == i
      invariant streams == KeyMap(entries[..i], tasks)
      invariant forall k :: 0 <= k < i ==> fresh(tasks[k]) && Started(tasks[k], entries[k], outputSize)
      invariant forall k, l :: 0 <= k < l < i ==> tasks[k] != tasks[l]
    {
      var tsk := new Ingestor(outputSize, (entries[i].0, entries[i].1 as int), headerWidth, order, unpickle);
      KeyMapSnoc(entries, tasks, tsk, i);
      streams := streams[StreamKey(entries[i]) := tsk];
      tasks := tasks + [tsk];
      i := i + 1;
    }
    assert entries[..i] == entries;
  }

  lemma KeyMapSnoc<T>(entries: seq<(string, nat)>, tasks: seq<T>, t: T, i: nat)
    requires i < |entries| && |tasks| == i
    ensures KeyMap(entries[..i + 1], tasks + [t]) == KeyMap(entries[..i], tasks)[StreamKey(entries[i]) := t]
  {
    assert entries[..i + 1][..i] == entries[..i] && (tasks + [t])[..i] == tasks;
  }

  // ---------------------------------------------------------------------------
  // `main` up to the point the relay would start.

  /** What the settings give: the port, the output size and the entries. */
  datatype Settings = Settings(port: nat, outputSize: (nat, nat), entries: seq<(string, nat)>)

  /**
   Lines 8-18: all three variables are looked up first (the `print` of line
   8, in the order PORT, STREAM_SIZE, STREAM_IPS), then PORT, STREAM_SIZE and
   STREAM_IPS are parsed in that order; the first step that raises decides
   the error.
   */
  function ReadSettings(env: map<string, string>, resolve: string -> Option<string>): Result<Settings, ConfigError>
  {
    if "PORT" !in env then Err(MissingVariable("PORT"))
    else if "STREAM_SIZE" !in env then Err(MissingVariable("STREAM_SIZE"))
    else if "STREAM_IPS" !in env then Err(MissingVariable("STREAM_IPS"))
    else match ParsePort(env["PORT"])
      case Err(e) => Err(e)
      case Ok(port) =>
        match ParseSize(env["STREAM_SIZE"])
        case Err(e) => Err(e)
        case Ok(size) =>
          match Entries(Split(env["STREAM_IPS"], ','), resolve)
          case Err(e) => Err(e)
          case Ok(es) => Ok(Settings(port, size, es))
  }

  function Addresses(cams: seq<(string, nat)>): seq<string>
  {
    seq(|cams|, i requires 0 <= i < |cams| => StreamKey(cams[i]))
  }

  /** The cameras' resolved addresses, `gethostbyname(host)` in place of each host. */
  function Resolved(cams: seq<(string, nat)>, ips: seq<string>): seq<(string, nat)>
    requires |ips| == |cams|
  {
    seq(|cams|, i requires 0 <= i < |cams| => (ips[i], cams[i].1))
  }

  /**
   Settings written as `main` reads them (`PORT=n`,
   `STREAM_SIZE=WxH`, `STREAM_IPS=host:port,...`) read back as what was
   written, each host resolved; a `STREAM_SIZE` with further `x` pieces reads
   the same.
   */
  lemma ReadWrittenSettings(port: nat, w: nat, h: nat, more: seq<string>, cams: seq<(string, nat)>, ips: seq<string>,
                            resolve: string -> Option<string>)
    requires forall i :: 0 <= i < |more| ==> 'x' !in more[i]
    requires |cams| >= 1 && |ips| == |cams|
    requires forall i :: 0 <= i < |cams| ==> ':' !in cams[i].0 && ',' !in cams[i].0 && resolve(cams[i].0) == Some(ips[i])
    ensures var env := map["PORT" := NatToString(port),
                           "STREAM_SIZE" := Join([NatToString(w), NatToString(h)] + more, 'x'),
                           "STREAM_IPS" := Join(Addresses(cams), ',')];
      ReadSettings(env, resolve) == Ok(Settings(port, (w, h), Resolved(cams, ips)))
  {
    var env := map["PORT" := NatToString(port),
                   "STREAM_SIZE" := Join([NatToString(w), NatToString(h)] + more, 'x'),
                   "STREAM_IPS" := Join(Addresses(cams), ',')];
    assert "PORT" in env && "STREAM_SIZE" in env && "STREAM_IPS" in env;
    ParseNatToString(port);
    assert ParsePort(env["PORT"]) == Ok(port);
    ReadWrittenSize(w, h, more);
    assert ParseSize(env["STREAM_SIZE"]) == Ok((w, h));
    ReadWrittenAddresses(cams, ips, resolve);
    assert Entries(Split(env["STREAM_IPS"], ','), resolve) == Ok(Resolved(cams, ips));
  }

  /** `STREAM_SIZE=WxH`, possibly with further `x` pieces, reads as (W, H). */
  lemma ReadWrittenSize(w: nat, h: nat, more: seq<string>)
    requires forall i :: 0 <= i < |more| ==> 'x' !in more[i]
    ensures ParseSize(Join([NatToString(w), NatToString(h)] + more, 'x')) == Ok((w, h))
  {
    ParseNatToString(w);
    ParseNatToString(h);
    var sizeParts := [NatToString(w), NatToString(h)] + more;
    forall i | 0 <= i < |sizeParts|
      ensures 'x' !in sizeParts[i]
    {
      if i == 0 {
        DigitsHoldNo(NatToString(w), 'x');
      } else if i == 1 {
        DigitsHoldNo(NatToString(h), 'x');
      } else {
        assert sizeParts[i] == more[i - 2];
      }
    }
    JoinSplit(sizeParts, 'x');
  }

  /** `STREAM_IPS=host:port,...` reads as the cameras' entries, each host resolved. */
  lemma ReadWrittenAddresses(cams: seq<(string, nat)>, ips: seq<string>, resolve: string -> Option<string>)
    requires |cams| >= 1 && |ips| == |cams|
    requires forall i :: 0 <= i < |cams| ==> ':' !in cams[i].0 && ',' !in cams[i].0 && resolve(cams[i].0) == Some(ips[i])
    ensures Entries(Split(Join(Addresses(cams), ','), ','), resolve) == Ok(Resolved(cams, ips))
  {
    var fields := Addresses(cams);
    forall i | 0 <= i < |fields|
      ensures ',' !in fields[i]
    {
      DigitsHoldNo(NatToString(cams[i].1), ',');
    }
    JoinSplit(fields, ',');
    forall i | 0 <= i < |fields|
      ensures ParseEntry(fields[i], resolve) == Ok((ips[i], cams[i].1))
    {
      KeySplits(cams[i]);
      assert fields[i] == StreamKey(cams[i]);
      ParseNatToString(cams[i].1);
    }
    EntriesAt(fields, resolve);
    var es := Entries(fields, resolve).value;
    assert |es| == |cams|;
    assert forall i :: 0 <= i < |es| ==> es[i] == Resolved(cams, ips)[i];
    assert es == Resolved(cams, ips);
  }

  /**
   `main` up to the relay's start (lines 8-24): the settings, and on success
   one started ingestor per entry; otherwise the error that `main` raises,
   and no ingestor is created.
   */
  method Launch(env: map<string, string>, resolve: string -> Option<string>, headerWidth: nat, order: ByteOrder,
                unpickle: seq<byte> -> Option<(nat, nat)>)
    returns (r: Result<(Settings, map<string, Ingestor>), ConfigError>, ghost tasks: seq<Ingestor>)
    requires headerWidth > 0
    ensures ReadSettings(env, resolve).Err? <==> r.Err?
    ensures r.Err? ==> r.error == ReadSettings(env, resolve).error && tasks == []
    ensures r.Ok? ==> var s := ReadSettings(env, resolve).value;
      && r.value.0 == s
      && |tasks| == |s.entries| && r.value.1 == KeyMap(s.entries, tasks)
      && forall i :: 0 <= i < |tasks| ==> fresh(tasks[i]) && Started(tasks[i], s.entries[i], s.outputSize)
  {
    tasks := [];
    if "PORT" !in env {
      return Err(MissingVariable("PORT")), tasks;
    }
    if "STREAM_SIZE" !in env {
      return Err(MissingVariable("STREAM_SIZE")), tasks;
    }
    if "STREAM_IPS" !in env {
      return Err(MissingVariable("STREAM_IPS")), tasks;
    }
    var port := ParsePort(env["PORT"]);
    if port.Err? {
      return Err(port.error), tasks;
    }
    var size := ParseSize(env["STREAM_SIZE"]);
    if size.Err? {
      return Err(size.error), tasks;
    }
    var entries := StreamAddresses(env["STREAM_IPS"], resolve);
    if entries.Err? {
      return Err(entries.error), tasks;
    }
    var streams;
    streams, tasks := StartIngestors(size.value, entries.value, headerWidth, order, unpickle);
    r := Ok((Settings(port.value, size.value, entries.value), streams));
  }
}
