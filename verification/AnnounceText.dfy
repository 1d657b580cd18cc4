/**
  Announce values: the operator's text, the status line the checker puts after it, and how the two
  are told apart again. Texts are sequences of bytes written as characters.
*/
module AnnounceText {
  import opened Wrappers

  const PREFIX := "rwEncodeBase64:"
  const MAX_BASE_BYTES := 16 * 1024

  predicate HasPrefix(s: string, prefix: string) {
    |prefix| <= |s| && s[..|prefix|] == prefix
  }

  predicate HasSuffix(s: string, suffix: string) {
    |suffix| <= |s| && s[|s| - |suffix|..] == suffix
  }

  predicate IsManagedBase(value: string) {
    |PREFIX| < |value| <= MAX_BASE_BYTES && HasPrefix(value, PREFIX) && '\0' !in value && '\r' !in value
  }

  predicate IsAppendableBase(value: string) {
    IsManagedBase(value) && '\n' !in value && '\r' !in value
  }

  /** A status line, as every message is validated before it is used. */
  predicate IsLine(message: string) {
    message != "" && '\n' !in message && '\r' !in message
  }

  /** The value of a header with this base and status; "" when there is neither. */
  function Compose(base: Option<string>, message: string): string {
    if message == "" then (if base.Some? then base.value else "")
    else if base.Some? then base.value + "\n" + message
    else PREFIX + message
  }

  /** splitKnownManagedAnnounce: the base in front of one of these messages, if it is one of them. */
  method SplitKnown(value: string, messages: seq<string>) returns (known: bool, base: Option<string>)
    ensures (known, base) == Split(value, messages)
  {
    var i := 0;
    while i < |messages|
      invariant 0 <= i <= |messages|
      invariant Split(value, messages) == Split(value, messages[i..])
    {
      var message := messages[i];
      if message != "" {
        if value == PREFIX + message {
          return true, None;
        }
        var suffix := "\n" + message;
        if HasSuffix(value, suffix) {
          var trimmed := value[..|value| - |suffix|];
          if IsManagedBase(trimmed) {
            return true, Some(trimmed);
          }
        }
      }
      i := i + 1;
    }
    return false, None;
  }

  function SplitOne(value: string, message: string): (bool, Option<string>) {
    var suffix := "\n" + message;
    if message == "" then (false, None)
    else if value == PREFIX + message then (true, None)
    else if HasSuffix(value, suffix) && IsManagedBase(value[..|value| - |suffix|]) then (true, Some(value[..|value| - |suffix|]))
    else (false, None)
  }

  function Split(value: string, messages: seq<string>): (bool, Option<string>) {
    if messages == [] then (false, None)
    else
      var first := SplitOne(value, messages[0]);
      if first.0 then first else Split(value, messages[1..])
  }

  /** Two ways to end in a line break and a line are the same way. */
  lemma LastLineIsUnique(a: string, m: string, b: string, n: string)
    requires a + "\n" + m == b + "\n" + n
    requires '\n' !in m && '\n' !in n
    ensures a == b && m == n
  {
    var s := a + "\n" + m;
    assert s[|a|] == '\n' && s[|b|] == '\n';
    forall i | |a| < i < |s| ensures s[i] != '\n' {
      assert s[i] == m[i - |a| - 1];
    }
    forall i | |b| < i < |s| ensures s[i] != '\n' {
      assert s[i] == n[i - |b| - 1];
    }
    assert a == s[..|a|] == b;
    assert m == s[|a| + 1..] == n;
  }

  /** A value is split at a message exactly when it was composed with it. */
  lemma SplitOneInvertsCompose(value: string, message: string, base: Option<string>)
    requires IsLine(message)
    ensures SplitOne(value, message) == (true, base) <==>
            value == Compose(base, message) && (base.Some? ==> IsManagedBase(base.value))
  {
    var suffix := "\n" + message;
    if HasSuffix(value, suffix) {
      assert value == value[..|value| - |suffix|] + "\n" + message;
    }
    if base.Some? && value == Compose(base, message) {
      assert value == base.value + suffix;
      assert value[|value| - |suffix|..] == suffix;
      assert value[..|value| - |suffix|] == base.value;
      if IsManagedBase(base.value) {
        assert |value| > |PREFIX + message|;
      }
    }
  }

  /** Composing is one to one: the base and the line can both be read back. */
  lemma ComposeIsInjective(b: Option<string>, m: string, c: Option<string>, n: string)
    requires IsLine(m) && IsLine(n)
    requires b.Some? ==> IsManagedBase(b.value)
    requires c.Some? ==> IsManagedBase(c.value)
    requires Compose(b, m) == Compose(c, n)
    ensures b == c && m == n
  {
    if b.Some? && c.Some? {
      LastLineIsUnique(b.value, m, c.value, n);
    } else if b.None? && c.None? {
      assert m == (PREFIX + m)[|PREFIX|..] == (PREFIX + n)[|PREFIX|..] == n;
    } else if b.Some? {
      BaseShowsItsBreak(b.value, m, n);
    } else {
      BaseShowsItsBreak(c.value, n, m);
    }
  }

  lemma BaseShowsItsBreak(base: string, m: string, n: string)
    requires IsManagedBase(base) && IsLine(m) && IsLine(n)
    ensures base + "\n" + m != PREFIX + n
  {
    var s, t := base + "\n" + m, PREFIX + n;
    assert s[|base|] == '\n';
    if |base| < |t| {
      assert t[|base|] == n[|base| - |PREFIX|];
    }
  }

  /** What the checker composed with one of the messages it still knows is split into exactly that
      base; with any other message it is not recognised at all. */
  lemma {:induction false} SplitRecoversTheBase(base: Option<string>, message: string, messages: seq<string>)
    requires IsLine(message) && (base.Some? ==> IsManagedBase(base.value))
    requires forall m :: m in messages ==> m == "" || IsLine(m)
    ensures Split(Compose(base, message), messages) == if message in messages then (true, base) else (false, None)
    decreases |messages|
  {
    var value := Compose(base, message);
    if messages != [] {
      var first := messages[0];
      SplitRecoversTheBase(base, message, messages[1..]);
      SplitOneInvertsCompose(value, message, base);
      if first != message && first != "" && SplitOne(value, first).0 {
        var other := SplitOne(value, first).1;
        SplitOneInvertsCompose(value, first, other);
        ComposeIsInjective(base, message, other, first);
      }
      assert messages == [first] + messages[1..];
    }
  }

  // ----- the header -----

  const HEADER := "announce"

  function Lower(c: char): char {
    if 'A' <= c <= 'Z' then c + ('a' - 'A') else c
  }

  function Folded(s: string): (r: string)
    ensures |r| == |s| && forall i :: 0 <= i < |s| ==> r[i] == Lower(s[i])
  {
    seq(|s|, i requires 0 <= i < |s| => Lower(s[i]))
  }

  predicate IsAnnounce(name: string) {
    Folded(name) == HEADER
  }

  datatype Current = Absent | One(value: string) | Duplicate

  /** The announce headers among these. */
  function Announces(headers: map<string, string>): set<string> {
    set name | name in headers && IsAnnounce(name)
  }

  /** What the panel's headers say about the announce, however they are spelled. */
  ghost predicate Reads(headers: map<string, string>, c: Current) {
    match c
    case Absent => Announces(headers) == {}
    case One(value) => exists name :: Announces(headers) == {name} && headers[name] == value
    case Duplicate => |Announces(headers)| >= 2
  }

  ghost function ReadAnnounce(headers: map<string, string>): (c: Current)
    ensures Reads(headers, c)
  {
    if Announces(headers) == {} then Absent
    else
      var name :| name in Announces(headers);
      if Announces(headers) == {name} then One(headers[name])
      else
        var other :| other in Announces(headers) - {name};
        TwoAreDuplicate(headers, name, other);
        Duplicate
  }

  /** headerValue: the headers are visited in any order, and the second match ends the search. */
  method HeaderValue(headers: map<string, string>) returns (c: Current)
    ensures c == ReadAnnounce(headers)
  {
    c := Absent;
    var left := headers.Keys;
    ghost var seen: set<string> := {};
    while left != {}
      invariant seen !! left && seen + left == headers.Keys
      invariant c.Absent? ==> seen * Announces(headers) == {}
      invariant c.One? ==> exists name :: seen * Announces(headers) == {name} && headers[name] == c.value
      invariant !c.Duplicate?
      decreases left
    {
      var name :| name in left;
      left := left - {name};
      if IsAnnounce(name) {
        if c.One? {
          ghost var first :| seen * Announces(headers) == {first};
          assert first in seen * Announces(headers);
          TwoAreDuplicate(headers, first, name);
          ReadsOnce(headers, Duplicate, ReadAnnounce(headers));
          return Duplicate;
        }
        c := One(headers[name]);
        assert (seen + {name}) * Announces(headers) == seen * Announces(headers) + {name} == {name};
      } else {
        assert (seen + {name}) * Announces(headers) == seen * Announces(headers);
      }
      seen := seen + {name};
    }
    assert seen * Announces(headers) == Announces(headers);
    ReadsOnce(headers, c, ReadAnnounce(headers));
  }

  lemma TwoAreDuplicate(headers: map<string, string>, a: string, b: string)
    requires a != b && a in Announces(headers) && b in Announces(headers)
    ensures |Announces(headers)| >= 2
  {
    assert Announces(headers) == (Announces(headers) - {a, b}) + {a, b};
    assert |{a, b}| == 2;
  }

  /** The three readings exclude each other. */
  lemma ReadsOnce(headers: map<string, string>, c: Current, d: Current)
    requires Reads(headers, c) && Reads(headers, d)
    ensures c == d
  {
    if c.One? && d.One? {
      var a :| Announces(headers) == {a} && headers[a] == c.value;
      var b :| Announces(headers) == {b} && headers[b] == d.value;
      assert a in {b};
    }
  }

  /** withoutHeader. */
  method WithoutHeader(headers: map<string, string>) returns (rest: map<string, string>)
    ensures rest == Others(headers)
  {
    rest := map[];
    var left := headers.Keys;
    while left != {}
      invariant left <= headers.Keys
      invariant rest.Keys == (headers.Keys - left) - Announces(headers)
      invariant forall name :: name in rest ==> rest[name] == headers[name]
      decreases left
    {
      var name :| name in left;
      left := left - {name};
      if !IsAnnounce(name) {
        rest := rest[name := headers[name]];
      }
    }
  }

  function Others(headers: map<string, string>): map<string, string> {
    headers - Announces(headers)
  }

  /** The headers that are written: everything else as it was, and at most one announce. */
  function WithAnnounce(headers: map<string, string>, value: Option<string>): map<string, string> {
    if value.Some? then Others(headers)[HEADER := value.value] else Others(headers)
  }

  lemma WrittenReadsBack(headers: map<string, string>, value: Option<string>)
    ensures ReadAnnounce(WithAnnounce(headers, value)) == if value.Some? then One(value.value) else Absent
    ensures Others(WithAnnounce(headers, value)) == Others(headers)
  {
    assert IsAnnounce(HEADER);
    var written := WithAnnounce(headers, value);
    if value.Some? {
      assert Announces(written) == {HEADER};
    } else {
      assert Announces(written) == {};
    }
    ReadsOnce(written, if value.Some? then One(value.value) else Absent, ReadAnnounce(written));
  }
}
