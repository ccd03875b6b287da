/** HTTP/3 SETTINGS frames: http3/frames.go.  The order in which a map is iterated is an input. */
module SettingsFrames {
  import opened Common
  import opened Varint

  const SETTING_EXTENDED_CONNECT: nat := 0x8
  const SETTING_DATAGRAM: nat := 0x33
  const MAX_SETTINGS_SIZE: nat := 8192

  datatype Settings = Settings(datagram: bool, extendedConnect: bool, other: map<nat, nat>)

  /** An identifier and its value, as they are encoded. */
  datatype Setting = Setting(id: nat, value: nat)

  predicate Encodable(s: Setting) {
    s.id <= MAX_VARINT_8 && s.value <= MAX_VARINT_8
  }

  predicate AllEncodable(ps: seq<Setting>) {
    forall i :: 0 <= i < |ps| ==> Encodable(ps[i])
  }

  function Bytes(ps: seq<Setting>): seq<Byte>
    requires AllEncodable(ps)
  {
    if ps == [] then [] else Append(ps[0].id) + Append(ps[0].value) + Bytes(ps[1..])
  }

  /** What the parser has seen so far. */
  datatype Parsed = Parsed(settings: Settings, readDatagram: bool, readExtendedConnect: bool)

  const NOTHING := Parsed(Settings(false, false, map[]), false, false)

  /** None is an error: a duplicate setting, or a flag that is neither 0 nor 1. */
  function Take(p: Parsed, s: Setting): Option<Parsed> {
    if s.id == SETTING_EXTENDED_CONNECT then
      if p.readExtendedConnect || s.value > 1 then None
      else Some(p.(readExtendedConnect := true, settings := p.settings.(extendedConnect := s.value == 1)))
    else if s.id == SETTING_DATAGRAM then
      if p.readDatagram || s.value > 1 then None
      else Some(p.(readDatagram := true, settings := p.settings.(datagram := s.value == 1)))
    else if s.id in p.settings.other then None
    else Some(p.(settings := p.settings.(other := p.settings.other[s.id := s.value])))
  }

  /** The settings that some encoded settings mean, taken one by one. */
  function TakeAll(p: Parsed, ps: seq<Setting>): Option<Parsed>
    decreases |ps|
  {
    if ps == [] then Some(p)
    else
      var q := Take(p, ps[0]);
      if q.None? then None else TakeAll(q.value, ps[1..])
  }

  /** The settings in a payload; None if it ends in the middle of one. */
  function Decode(b: seq<Byte>): Option<seq<Setting>>
    decreases |b|
  {
    if b == [] then Some([])
    else
      var id := Read(b);
      if id.None? then None
      else
        var value := Read(b[id.value.1..]);
        if value.None? then None
        else
          var rest := Decode(b[id.value.1..][value.value.1..]);
          if rest.None? then None else Some([Setting(id.value.0, value.value.0)] + rest.value)
  }

  function Meaning(p: Parsed, b: seq<Byte>): Option<Parsed> {
    var ps := Decode(b);
    if ps.None? then None else TakeAll(p, ps.value)
  }

  // ------------------------------------------------------------------
  // What a list of settings means
  // ------------------------------------------------------------------

  lemma {:induction false} TakeConcat(p: Parsed, ps: seq<Setting>, qs: seq<Setting>)
    ensures TakeAll(p, ps + qs) == if TakeAll(p, ps).None? then None else TakeAll(TakeAll(p, ps).value, qs)
    decreases |ps|
  {
    hide Take;
    if ps == [] {
      assert ps + qs == qs;
    } else {
      assert (ps + qs)[1..] == ps[1..] + qs;
      if Take(p, ps[0]).Some? {
        TakeConcat(Take(p, ps[0]).value, ps[1..], qs);
      }
    }
  }

  lemma TakeOne(p: Parsed, x: Setting)
    ensures TakeAll(p, [x]) == Take(p, x)
  {
  }

  predicate IsReserved(id: nat) {
    id == SETTING_DATAGRAM || id == SETTING_EXTENDED_CONNECT
  }

  /** No setting occurs twice, and flags are 0 or 1. */
  ghost predicate Acceptable(ps: seq<Setting>) {
    && (forall i, j :: 0 <= i < j < |ps| ==> ps[i].id != ps[j].id)
    && (forall i :: 0 <= i < |ps| && IsReserved(ps[i].id) ==> ps[i].value <= 1)
  }

  /** A flag is set exactly if its identifier occurs with the value 1, and the other settings are those listed. */
  ghost predicate Describes(s: Settings, ps: seq<Setting>) {
    && (s.datagram <==> Setting(0x33, 1) in ps)
    && (s.extendedConnect <==> Setting(0x8, 1) in ps)
    && (forall k, v :: k in s.other && s.other[k] == v <==> k != 0x33 && k != 0x8 && Setting(k, v) in ps)
  }

  ghost predicate Occurs(id: nat, ps: seq<Setting>) {
    exists i :: 0 <= i < |ps| && ps[i].id == id
  }

  /** What the parser remembers after a list of settings. */
  ghost predicate Remembers(p: Parsed, ps: seq<Setting>) {
    && Describes(p.settings, ps)
    && (p.readDatagram <==> Occurs(SETTING_DATAGRAM, ps))
    && (p.readExtendedConnect <==> Occurs(SETTING_EXTENDED_CONNECT, ps))
  }

  lemma OccursPush(id: nat, ps: seq<Setting>, x: Setting)
    ensures Occurs(id, ps + [x]) <==> Occurs(id, ps) || x.id == id
  {
    if x.id == id {
      assert (ps + [x])[|ps|].id == id;
    }
    if Occurs(id, ps) {
      var i :| 0 <= i < |ps| && ps[i].id == id;
      assert (ps + [x])[i].id == id;
    }
  }

  lemma AcceptablePush(ps: seq<Setting>, x: Setting)
    ensures Acceptable(ps + [x]) <==>
              Acceptable(ps) && !Occurs(x.id, ps) && (IsReserved(x.id) ==> x.value <= 1)
  {
    var qs := ps + [x];
    assert forall i :: 0 <= i < |ps| ==> qs[i] == ps[i];
    assert qs[|ps|] == x;
  }

  lemma OccursOther(s: Settings, ps: seq<Setting>, id: nat)
    requires Describes(s, ps) && !IsReserved(id)
    ensures id in s.other <==> Occurs(id, ps)
  {
    if id in s.other {
      assert Setting(id, s.other[id]) in ps;
    }
    if Occurs(id, ps) {
      var i :| 0 <= i < |ps| && ps[i].id == id;
      assert Setting(id, ps[i].value) == ps[i];
    }
  }

  lemma TakeRemembers(p: Parsed, ps: seq<Setting>, x: Setting)
    requires Remembers(p, ps)
    ensures Take(p, x).Some? <==> !Occurs(x.id, ps) && (IsReserved(x.id) ==> x.value <= 1)
    ensures Take(p, x).Some? ==> Remembers(Take(p, x).value, ps + [x])
  {
    if !IsReserved(x.id) {
      OccursOther(p.settings, ps, x.id);
    }
    OccursPush(SETTING_DATAGRAM, ps, x);
    OccursPush(SETTING_EXTENDED_CONNECT, ps, x);
    assert forall y :: y in ps && y.id == x.id ==> Occurs(x.id, ps);
  }

  /** A list of settings is accepted exactly if no setting occurs twice and the flags are 0 or 1, and then its flags
      and other settings are those that it lists. */
  lemma {:induction false} MeansWhatItLists(ps: seq<Setting>)
    ensures TakeAll(NOTHING, ps).Some? <==> Acceptable(ps)
    ensures TakeAll(NOTHING, ps).Some? ==> Remembers(TakeAll(NOTHING, ps).value, ps)
  {
    if ps != [] {
      var n := |ps| - 1;
      var x := ps[n];
      MeansWhatItLists(ps[..n]);
      assert ps == ps[..n] + [x];
      TakeConcat(NOTHING, ps[..n], [x]);
      AcceptablePush(ps[..n], x);
      var q := TakeAll(NOTHING, ps[..n]);
      if q.Some? {
        TakeOne(q.value, x);
        TakeRemembers(q.value, ps[..n], x);
      }
    }
  }

  // ------------------------------------------------------------------
  // Parsing
  // ------------------------------------------------------------------

  /** Parses the payload of a frame: it is accepted exactly if it is a list of settings of which none occurs twice and
      whose flags are 0 or 1. */
  method Parse(payload: seq<Byte>) returns (r: Option<Settings>)
    ensures |payload| > MAX_SETTINGS_SIZE ==> r == None
    ensures |payload| <= MAX_SETTINGS_SIZE ==>
              r == if Meaning(NOTHING, payload).None? then None else Some(Meaning(NOTHING, payload).value.settings)
    ensures r.Some? <==>
              |payload| <= MAX_SETTINGS_SIZE && Decode(payload).Some? && Acceptable(Decode(payload).value)
    ensures r.Some? ==> Describes(r.value, Decode(payload).value)
  {
    if Decode(payload).Some? {
      MeansWhatItLists(Decode(payload).value);
    }
    if |payload| > MAX_SETTINGS_SIZE {
      return None;
    }
    hide Read, Take;
    var b, p := payload, NOTHING;
    while |b| > 0
      invariant Meaning(NOTHING, payload) == Meaning(p, b)
      decreases |b|
    {
      var id := Read(b);
      if id.None? {
        return None;
      }
      var rest := b[id.value.1..];
      var val := Read(rest);
      if val.None? {
        return None;
      }
      var q := Take(p, Setting(id.value.0, val.value.0));
      MeaningStep(p, b, id.value, val.value);
      if q.None? {
        return None;
      }
      p, b := q.value, rest[val.value.1..];
    }
    return Some(p.settings);
  }

  lemma MeaningStep(p: Parsed, b: seq<Byte>, id: (nat, nat), val: (nat, nat))
    requires b != [] && Read(b) == Some(id) && Read(b[id.1..]) == Some(val)
    ensures var q := Take(p, Setting(id.0, val.0));
            Meaning(p, b) == if q.None? then None else Meaning(q.value, b[id.1..][val.1..])
  {
  }

  lemma {:induction false} DecodeBytes(ps: seq<Setting>)
    requires AllEncodable(ps)
    ensures Decode(Bytes(ps)) == Some(ps)
  {
    hide Read, Append;
    if ps != [] {
      var tail := Bytes(ps[1..]);
      var x, y := Append(ps[0].id), Append(ps[0].value);
      var b := Bytes(ps);
      assert b == x + (y + tail);
      ReadAppended(ps[0].id, y + tail);
      ReadAppended(ps[0].value, tail);
      assert b[|x|..] == y + tail && (y + tail)[|y|..] == tail;
      DecodeBytes(ps[1..]);
      assert ps == [ps[0]] + ps[1..];
    }
  }

  // ------------------------------------------------------------------
  // Encoding
  // ------------------------------------------------------------------

  /** An order in which a map may be iterated. */
  ghost predicate IsOrder(order: seq<nat>, m: map<nat, nat>) {
    && (forall k :: k in order <==> k in m)
    && (forall i, j :: 0 <= i < j < |order| ==> order[i] != order[j])
  }

  predicate SettingsEncodable(f: Settings) {
    forall k :: k in f.other ==> k <= MAX_VARINT_8 && f.other[k] <= MAX_VARINT_8
  }

  function Flags(f: Settings): seq<Setting> {
    (if f.datagram then [Setting(SETTING_DATAGRAM, 1)] else []) +
    (if f.extendedConnect then [Setting(SETTING_EXTENDED_CONNECT, 1)] else [])
  }

  function Others(m: map<nat, nat>, order: seq<nat>): seq<Setting>
    requires forall k :: k in order ==> k in m
  {
    seq(|order|, i requires 0 <= i < |order| => Setting(order[i], m[order[i]]))
  }

  function Size(ps: seq<Setting>): nat {
    if ps == [] then 0 else Size(ps[..|ps| - 1]) + Len(ps[|ps| - 1].id) + Len(ps[|ps| - 1].value)
  }

  lemma {:induction false} SizeConcat(ps: seq<Setting>, qs: seq<Setting>)
    ensures Size(ps + qs) == Size(ps) + Size(qs)
  {
    hide Len;
    if qs == [] {
      assert ps + qs == ps;
    } else {
      var n := |qs| - 1;
      assert (ps + qs)[..|ps| + n] == ps + qs[..n];
      SizeConcat(ps, qs[..n]);
    }
  }

  lemma {:induction false} SizeOfBytes(ps: seq<Setting>)
    requires AllEncodable(ps)
    ensures |Bytes(ps)| == Size(ps)
  {
    if ps != [] {
      SizeOfBytes(ps[1..]);
      SizeConcat([ps[0]], ps[1..]);
      assert [ps[0]] + ps[1..] == ps && [ps[0]][..0] == [];
    }
  }

  function Without(ps: seq<Setting>, j: nat): seq<Setting>
    requires j < |ps|
  {
    ps[..j] + ps[j + 1..]
  }

  lemma SizeWithout(ps: seq<Setting>, j: nat)
    requires j < |ps|
    ensures Size(ps) == Size(Without(ps, j)) + Size([ps[j]])
  {
    hide Size;
    var a, x, b := ps[..j], [ps[j]], ps[j + 1..];
    assert ps == a + x + b;
    SizeConcat(a + x, b);
    SizeConcat(a, x);
    SizeConcat(a, b);
  }

  lemma MultisetWithout(ps: seq<Setting>, j: nat)
    requires j < |ps|
    ensures multiset(Without(ps, j)) == multiset(ps) - multiset{ps[j]}
  {
    assert ps == ps[..j] + [ps[j]] + ps[j + 1..];
    assert multiset(ps) == multiset(ps[..j]) + multiset{ps[j]} + multiset(ps[j + 1..]);
  }

  /** The size does not depend on the order. */
  lemma {:induction false} SizeOfPermutation(ps: seq<Setting>, qs: seq<Setting>)
    requires multiset(ps) == multiset(qs)
    ensures Size(ps) == Size(qs)
  {
    if ps == [] {
      assert |multiset(qs)| == 0;
    } else {
      hide Size, Without;
      assert ps[0] in multiset(ps) && ps[0] in multiset(qs);
      var j :| 0 <= j < |qs| && qs[j] == ps[0];
      MultisetWithout(ps, 0);
      MultisetWithout(qs, j);
      SizeWithout(ps, 0);
      SizeWithout(qs, j);
      assert |multiset(Without(ps, 0))| < |multiset(ps)|;
      SizeOfPermutation(Without(ps, 0), Without(qs, j));
    }
  }

  /** Two orders of one map list the same settings. */
  lemma SameSettings(m: map<nat, nat>, a: seq<nat>, b: seq<nat>)
    requires IsOrder(a, m) && IsOrder(b, m)
    ensures multiset(Others(m, a)) == multiset(Others(m, b))
  {
    forall x ensures multiset(Others(m, a))[x] == multiset(Others(m, b))[x] {
      Once(m, a, x);
      Once(m, b, x);
    }
  }

  lemma {:induction false} Once(m: map<nat, nat>, order: seq<nat>, x: Setting)
    requires (forall k :: k in order ==> k in m) && forall i, j :: 0 <= i < j < |order| ==> order[i] != order[j]
    ensures multiset(Others(m, order))[x] == if x.id in order && m[x.id] == x.value then 1 else 0
  {
    if order != [] {
      var n := |order| - 1;
      Once(m, order[..n], x);
      assert Others(m, order) == Others(m, order[..n]) + [Setting(order[n], m[order[n]])];
    }
  }

  lemma BytesFirst(x: Setting, ps: seq<Setting>)
    requires AllEncodable(ps) && Encodable(x)
    ensures AllEncodable([x] + ps) && Bytes([x] + ps) == Append(x.id) + Append(x.value) + Bytes(ps)
  {
    hide Append;
    assert ([x] + ps)[1..] == ps;
  }

  lemma {:induction false} BytesPush(ps: seq<Setting>, x: Setting)
    requires AllEncodable(ps) && Encodable(x)
    ensures AllEncodable(ps + [x]) && Bytes(ps + [x]) == Bytes(ps) + Append(x.id) + Append(x.value)
  {
    hide Append;
    if ps == [] {
      BytesFirst(x, []);
      assert ps + [x] == [x] + [];
    } else {
      BytesPush(ps[1..], x);
      assert ps == [ps[0]] + ps[1..] && ps + [x] == [ps[0]] + (ps[1..] + [x]);
      BytesFirst(ps[0], ps[1..]);
      BytesFirst(ps[0], ps[1..] + [x]);
      hide Bytes;
    }
  }

  /** Encodes a frame: its type, the length of its payload and the payload.  The two loops may iterate the map in
      different orders. */
  method AppendSettings(f: Settings, order1: seq<nat>, order2: seq<nat>) returns (header: seq<Byte>, payload: seq<Byte>)
    requires SettingsEncodable(f) && IsOrder(order1, f.other) && IsOrder(order2, f.other)
    requires Size(Flags(f) + Others(f.other, order1)) <= MAX_VARINT_8
    ensures AllEncodable(Flags(f) + Others(f.other, order2)) && payload == Bytes(Flags(f) + Others(f.other, order2))
    ensures |payload| == Size(Flags(f) + Others(f.other, order1)) && header == Append(0x4) + Append(|payload|)
  {
    var l := Measure(f, order1);
    SameSettings(f.other, order1, order2);
    SizeOfPermutation(Others(f.other, order1), Others(f.other, order2));
    SizeConcat(Flags(f), Others(f.other, order1));
    SizeConcat(Flags(f), Others(f.other, order2));
    payload := Write(f, order2);
    SizeOfBytes(Flags(f) + Others(f.other, order2));
    header := Append(0x4) + Append(l);
  }

  method Measure(f: Settings, order: seq<nat>) returns (l: nat)
    requires SettingsEncodable(f) && IsOrder(order, f.other)
    ensures l == Size(Flags(f) + Others(f.other, order))
  {
    hide Len;
    ghost var ps := Others(f.other, order);
    l := 0;
    for i := 0 to |order|
      invariant l == Size(ps[..i])
    {
      assert ps[..i + 1][..i] == ps[..i] && order[i] in order;
      l := l + Len(order[i]) + Len(f.other[order[i]]);
    }
    assert ps[..|order|] == ps;
    SizeConcat(Flags(f), ps);
    FlagSize(f);
    if f.datagram {
      l := l + Len(SETTING_DATAGRAM) + Len(1);
    }
    if f.extendedConnect {
      l := l + Len(SETTING_EXTENDED_CONNECT) + Len(1);
    }
  }

  lemma FlagSize(f: Settings)
    ensures Size(Flags(f)) == (if f.datagram then Len(SETTING_DATAGRAM) + Len(1) else 0) +
                              (if f.extendedConnect then Len(SETTING_EXTENDED_CONNECT) + Len(1) else 0)
  {
    var d, e := Setting(SETTING_DATAGRAM, 1), Setting(SETTING_EXTENDED_CONNECT, 1);
    assert [d, e][..1] == [d] && [d][..0] == [] && [e][..0] == [];
    assert Flags(f) ==
             (if f.datagram then if f.extendedConnect then [d, e] else [d] else if f.extendedConnect then [e] else []);
  }

  method Write(f: Settings, order: seq<nat>) returns (b: seq<Byte>)
    requires SettingsEncodable(f) && IsOrder(order, f.other)
    ensures AllEncodable(Flags(f) + Others(f.other, order)) && b == Bytes(Flags(f) + Others(f.other, order))
  {
    hide Append, Bytes;
    ghost var ps := Others(f.other, order);
    b := [];
    ghost var done: seq<Setting> := [];
    assert Bytes(done) == [] by { NoBytes(); }
    if f.datagram {
      BytesPush(done, Setting(SETTING_DATAGRAM, 1));
      b := b + Append(SETTING_DATAGRAM) + Append(1);
      done := done + [Setting(SETTING_DATAGRAM, 1)];
    }
    if f.extendedConnect {
      BytesPush(done, Setting(SETTING_EXTENDED_CONNECT, 1));
      b := b + Append(SETTING_EXTENDED_CONNECT) + Append(1);
      done := done + [Setting(SETTING_EXTENDED_CONNECT, 1)];
    }
    assert done == Flags(f) == Flags(f) + ps[..0];
    for i := 0 to |order|
      invariant AllEncodable(Flags(f) + ps[..i]) && b == Bytes(Flags(f) + ps[..i])
    {
      assert order[i] in order;
      BytesPush(Flags(f) + ps[..i], ps[i]);
      assert Flags(f) + ps[..i] + [ps[i]] == Flags(f) + ps[..i + 1];
      b := b + Append(order[i]) + Append(f.other[order[i]]);
    }
    assert ps[..|order|] == ps;
  }

  lemma NoBytes()
    ensures Bytes([]) == []
  {
  }

  // ------------------------------------------------------------------
  // Round trip
  // ------------------------------------------------------------------

  predicate NoneReserved(m: map<nat, nat>) {
    forall k :: k in m ==> !IsReserved(k)
  }

  /** A setting with a reserved number is never taken for another setting. */
  lemma {:induction false} StaysClean(p: Parsed, ps: seq<Setting>)
    requires NoneReserved(p.settings.other)
    ensures TakeAll(p, ps).Some? ==> NoneReserved(TakeAll(p, ps).value.settings.other)
    decreases |ps|
  {
    if ps != [] && Take(p, ps[0]).Some? {
      StaysClean(Take(p, ps[0]).value, ps[1..]);
    }
  }

  /** The part of a map with given keys. */
  ghost function Restricted(m: map<nat, nat>, keys: seq<nat>): map<nat, nat> {
    map k | k in keys && k in m :: m[k]
  }

  lemma RestrictedPush(m: map<nat, nat>, keys: seq<nat>, k: nat)
    requires k in m
    ensures Restricted(m, keys + [k]) == Restricted(m, keys)[k := m[k]]
  {
  }

  lemma {:induction false} TakeOthers(p: Parsed, m: map<nat, nat>, order: seq<nat>)
    requires (forall k :: k in order ==> k in m && !IsReserved(k))
    requires forall i, j :: 0 <= i < j < |order| ==> order[i] != order[j]
    requires p.settings.other == map[]
    ensures TakeAll(p, Others(m, order)) == Some(p.(settings := p.settings.(other := Restricted(m, order))))
  {
    if order == [] {
      assert Restricted(m, order) == map[];
    } else {
      var n := |order| - 1;
      var x := Setting(order[n], m[order[n]]);
      TakeOthers(p, m, order[..n]);
      assert Others(m, order) == Others(m, order[..n]) + [x];
      assert order == order[..n] + [order[n]] && order[n] in order && order[n] !in order[..n];
      hide TakeAll, Others;
      TakeConcat(p, Others(m, order[..n]), [x]);
      TakeOne(TakeAll(p, Others(m, order[..n])).value, x);
      RestrictedPush(m, order[..n], order[n]);
    }
  }

  lemma TakeFlags(f: Settings)
    ensures TakeAll(NOTHING, Flags(f)) == Some(Parsed(f.(other := map[]), f.datagram, f.extendedConnect))
  {
    var d, e := Setting(SETTING_DATAGRAM, 1), Setting(SETTING_EXTENDED_CONNECT, 1);
    var p := if f.datagram then Take(NOTHING, d).value else NOTHING;
    TakeOne(NOTHING, d);
    TakeOne(p, e);
    TakeConcat(NOTHING, if f.datagram then [d] else [], if f.extendedConnect then [e] else []);
  }

  /** What an encoded frame means is the frame itself, in any order of the map, exactly if it uses no reserved
      number. */
  lemma EncodedMeansItself(f: Settings, order: seq<nat>)
    requires IsOrder(order, f.other)
    ensures var p := TakeAll(NOTHING, Flags(f) + Others(f.other, order));
            (p.Some? && p.value.settings == f) <==> NoneReserved(f.other)
  {
    StaysClean(NOTHING, Flags(f) + Others(f.other, order));
    if NoneReserved(f.other) {
      TakeFlags(f);
      TakeConcat(NOTHING, Flags(f), Others(f.other, order));
      TakeOthers(Parsed(f.(other := map[]), f.datagram, f.extendedConnect), f.other, order);
      assert Restricted(f.other, order) == f.other;
    }
  }

  /** Parsing an encoded frame gives the same settings back exactly if it uses no reserved number and is not too
      long. */
  method RoundTrip(f: Settings, order1: seq<nat>, order2: seq<nat>) returns (r: Option<Settings>, size: nat)
    requires SettingsEncodable(f) && IsOrder(order1, f.other) && IsOrder(order2, f.other)
    requires Size(Flags(f) + Others(f.other, order1)) <= MAX_VARINT_8
    ensures size == Size(Flags(f) + Others(f.other, order1))
    ensures r == Some(f) <==> NoneReserved(f.other) && size <= MAX_SETTINGS_SIZE
  {
    var header, payload := AppendSettings(f, order1, order2);
    size := |payload|;
    r := Parse(payload);
    DecodeBytes(Flags(f) + Others(f.other, order2));
    EncodedMeansItself(f, order2);
  }
}
