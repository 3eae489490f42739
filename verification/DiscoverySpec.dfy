/**
 * Attributing client characteristic configuration (CCC) descriptors to characteristics by handle,
 * lib/bt/connect.c, for any layout of the service (Bluetooth Core Vol 3 Part G, section 3.3).
 */
module DiscoverySpec {
  import opened Base

  datatype Uuid = Info | Downlink | Uplink | ServerCert | DeviceCert | Other(n: nat)

  const ATTRS := 5

  const CHAR_UUIDS := [Info, Downlink, Uplink, ServerCert, DeviceCert]

  const HANDLE_MODULUS := 0x1_0000

  /** Value and CCC handle of a known characteristic; 0 when not discovered. */
  datatype AttrHandle = AttrHandle(value: nat, ccc: nat)

  const UNKNOWN := AttrHandle(0, 0)

  const EMPTY_ATTRS := [UNKNOWN, UNKNOWN, UNKNOWN, UNKNOWN, UNKNOWN]

  type Table = t: seq<AttrHandle> | |t| == ATTRS witness EMPTY_ATTRS

  const EMPTY_TABLE: Table := EMPTY_ATTRS

  /** The position of a UUID in the table of known ones. */
  function IndexOf(uuid: Uuid): (r: Option<nat>)
    ensures r.Some? ==> r.value < ATTRS && CHAR_UUIDS[r.value] == uuid
    ensures r.None? ==> uuid !in CHAR_UUIDS
  {
    match uuid
    case Info => Some(0)
    case Downlink => Some(1)
    case Uplink => Some(2)
    case ServerCert => Some(3)
    case DeviceCert => Some(4)
    case Other(_) => None
  }

  function NoteCharacteristic(t: Table, uuid: Uuid, value: nat): Table {
    match IndexOf(uuid)
    case Some(k) => t[k := t[k].(value := value)]
    case None => t
  }

  /** The smallest of `end` and the first n value handles. */
  function LeastValue(t: Table, end: nat, n: nat): (v: nat)
    requires n <= ATTRS
    ensures v <= end && forall i :: 0 <= i < n ==> v <= t[i].value
    ensures v == end || exists i :: 0 <= i < n && v == t[i].value
  {
    if n == 0 then end
    else
      var v := LeastValue(t, end, n - 1);
      if t[n - 1].value < v then t[n - 1].value else v
  }

  /** Where the search for descriptors starts, in uint16_t arithmetic. */
  function StartHandle(t: Table, end: nat): (h: nat)
    ensures h < 0x1_0000
  {
    (LeastValue(t, end, ATTRS) + 2) % HANDLE_MODULUS
  }

  predicate Usable(t: Table) {
    t[2].value != 0 && t[1].value != 0
  }

  /** The value handle closest to but lower than h, among the first n; the first of equals. */
  predicate IsClosest(t: Table, h: nat, n: nat, r: nat)
    requires n <= ATTRS
  {
    r < n && t[r].value < h &&
    forall i :: 0 <= i < n && t[i].value < h ==> t[i].value <= t[r].value && (i < r ==> t[i].value < t[r].value)
  }

  function Closest(t: Table, h: nat, n: nat): (r: Option<nat>)
    requires n <= ATTRS
    ensures if r.Some? then IsClosest(t, h, n, r.value) else forall i :: 0 <= i < n ==> t[i].value >= h
  {
    if n == 0 then None
    else
      var best := Closest(t, h, n - 1);
      if t[n - 1].value < h && (best.None? || t[n - 1].value > t[best.value].value) then Some(n - 1) else best
  }

  lemma ClosestIsUnique(t: Table, h: nat, n: nat, r: nat)
    requires n <= ATTRS && IsClosest(t, h, n, r)
    ensures Closest(t, h, n) == Some(r)
  {}

  /** A CCC descriptor at handle h is recorded with the closest characteristic before it. */
  function Attribute(t: Table, h: nat): Table {
    match Closest(t, h, ATTRS)
    case Some(k) => t[k := t[k].(ccc := h)]
    case None => t
  }

  // ----- A server's layout

  /** A characteristic: declared at value - 1, its descriptors behind the value up to `end`. */
  datatype Characteristic = Characteristic(uuid: Uuid, value: nat, ccc: Option<nat>, end: nat)

  /** A service declared at `handle`; `foreign` are the CCC descriptors of the services before it. */
  datatype Layout = Layout(foreign: seq<nat>, handle: nat, chars: seq<Characteristic>, end: nat)

  predicate InOrder(chars: seq<Characteristic>, after: nat, end: nat) {
    && (forall i :: 0 <= i < |chars| ==>
          after + 1 < chars[i].value <= chars[i].end <= end &&
          (chars[i].ccc.Some? ==> chars[i].value < chars[i].ccc.value <= chars[i].end))
    && (forall i, j :: 0 <= i < j < |chars| ==> chars[i].end + 1 < chars[j].value)
  }

  /** A layout as the specification has it, with no known UUID twice. */
  predicate WellFormed(l: Layout) {
    && 0 < l.handle && l.end < 0x1_0000
    && InOrder(l.chars, l.handle, l.end)
    && (forall i :: 0 <= i < |l.foreign| ==> 0 < l.foreign[i] < l.handle)
    && (forall i, j :: 0 <= i < j < |l.chars| && IndexOf(l.chars[i].uuid).Some? ==> l.chars[i].uuid != l.chars[j].uuid)
  }

  /** The gateway knows characteristic i. */
  predicate Known(l: Layout, i: nat)
    requires i < |l.chars|
  {
    IndexOf(l.chars[i].uuid).Some?
  }

  lemma Apart(l: Layout, i: nat, j: nat)
    requires WellFormed(l) && i < |l.chars| && j < |l.chars|
    ensures i < j ==> l.chars[i].end + 1 < l.chars[j].value
    ensures j < i ==> l.chars[j].end + 1 < l.chars[i].value
  {}

  function NoteAll(t: Table, chars: seq<Characteristic>): Table
    decreases |chars|
  {
    if chars == [] then t else NoteAll(NoteCharacteristic(t, chars[0].uuid, chars[0].value), chars[1..])
  }

  function OwnCccs(chars: seq<Characteristic>): seq<nat> {
    if chars == [] then []
    else (if chars[0].ccc.Some? then [chars[0].ccc.value] else []) + OwnCccs(chars[1..])
  }

  function From(handles: seq<nat>, start: nat): seq<nat> {
    if handles == [] then []
    else (if handles[0] >= start then [handles[0]] else []) + From(handles[1..], start)
  }

  function AttributeAll(t: Table, handles: seq<nat>): Table
    decreases |handles|
  {
    if handles == [] then t else AttributeAll(Attribute(t, handles[0]), handles[1..])
  }

  /** The table after the first phase. */
  function Noted(l: Layout): Table {
    NoteAll(EMPTY_TABLE, l.chars)
  }

  /** The CCC descriptors the second phase reports: those from the start handle on. */
  function Reported(l: Layout): seq<nat> {
    From(l.foreign + OwnCccs(l.chars), StartHandle(Noted(l), l.end))
  }

  /** Discovery reports the characteristics, and then the descriptors if it found uplink and downlink. */
  function Discovered(l: Layout): Table {
    if Usable(Noted(l)) then AttributeAll(Noted(l), Reported(l)) else Noted(l)
  }

  // ----- Characteristics

  lemma {:induction false} NoteAllKeeps(t: Table, chars: seq<Characteristic>, k: nat)
    requires k < ATTRS && forall i :: 0 <= i < |chars| ==> IndexOf(chars[i].uuid) != Some(k)
    ensures NoteAll(t, chars)[k] == t[k]
    decreases |chars|
  {
    if chars != [] {
      assert IndexOf(chars[0].uuid) != Some(k);
      NoteAllKeeps(NoteCharacteristic(t, chars[0].uuid, chars[0].value), chars[1..], k);
    }
  }

  lemma {:induction false} NoteAllNotes(t: Table, chars: seq<Characteristic>, i: nat)
    requires i < |chars| && IndexOf(chars[i].uuid).Some?
    requires forall a, c :: 0 <= a < c < |chars| && IndexOf(chars[a].uuid).Some? ==> chars[a].uuid != chars[c].uuid
    ensures var k := IndexOf(chars[i].uuid).value;
            NoteAll(t, chars)[k] == AttrHandle(chars[i].value, t[k].ccc)
    decreases |chars|
  {
    var k := IndexOf(chars[i].uuid).value;
    var t' := NoteCharacteristic(t, chars[0].uuid, chars[0].value);
    if i == 0 {
      forall j | 0 <= j < |chars[1..]| ensures IndexOf(chars[1..][j].uuid) != Some(k) {
        assert chars[0].uuid != chars[j + 1].uuid;
      }
      NoteAllKeeps(t', chars[1..], k);
    } else {
      assert chars[0].uuid != chars[i].uuid;
      NoteAllNotes(t', chars[1..], i - 1);
    }
  }

  /** After the first phase each entry is its characteristic's value handle, or 0. */
  lemma NotedValues(l: Layout, k: nat)
    requires WellFormed(l) && k < ATTRS
    ensures var e := Noted(l)[k];
            e.ccc == 0 &&
            (e.value == 0 ||
             exists j :: 0 <= j < |l.chars| && IndexOf(l.chars[j].uuid) == Some(k) && e.value == l.chars[j].value)
  {
    if j :| 0 <= j < |l.chars| && IndexOf(l.chars[j].uuid) == Some(k) {
      NoteAllNotes(EMPTY_TABLE, l.chars, j);
    } else {
      NoteAllKeeps(EMPTY_TABLE, l.chars, k);
    }
  }

  /** The characteristic behind an entry that is not 0. */
  lemma NotedBy(l: Layout, k: nat) returns (j: nat)
    requires WellFormed(l) && k < ATTRS && Noted(l)[k].value != 0
    ensures j < |l.chars| && IndexOf(l.chars[j].uuid) == Some(k) && Noted(l)[k] == AttrHandle(l.chars[j].value, 0)
  {
    NotedValues(l, k);
    j :| 0 <= j < |l.chars| && IndexOf(l.chars[j].uuid) == Some(k) && Noted(l)[k].value == l.chars[j].value;
  }

  // ----- Descriptors

  lemma SameValuesSameClosest(t: Table, t': Table, h: nat, n: nat)
    requires n <= ATTRS && forall i :: 0 <= i < ATTRS ==> t'[i].value == t[i].value
    ensures Closest(t', h, n) == Closest(t, h, n)
  {
    if Closest(t, h, n).Some? {
      ClosestIsUnique(t', h, n, Closest(t, h, n).value);
    }
  }

  lemma {:induction false} NeverAttributed(t: Table, handles: seq<nat>, k: nat)
    requires k < ATTRS
    requires forall j :: 0 <= j < |handles| ==> Closest(t, handles[j], ATTRS) != Some(k)
    ensures AttributeAll(t, handles)[k] == t[k]
    decreases |handles|
  {
    if handles != [] {
      var t' := Attribute(t, handles[0]);
      forall x: nat ensures Closest(t', x, ATTRS) == Closest(t, x, ATTRS) {
        SameValuesSameClosest(t, t', x, ATTRS);
      }
      NeverAttributed(t', handles[1..], k);
    }
  }

  /** The last of the descriptors reported that is closest to characteristic k is the one recorded. */
  lemma {:induction false} LastAttributed(t: Table, handles: seq<nat>, k: nat, j: nat)
    requires k < ATTRS && j < |handles| && Closest(t, handles[j], ATTRS) == Some(k)
    requires forall n :: j < n < |handles| ==> Closest(t, handles[n], ATTRS) != Some(k)
    ensures AttributeAll(t, handles)[k] == AttrHandle(t[k].value, handles[j])
    decreases |handles|
  {
    var t' := Attribute(t, handles[0]);
    forall x: nat ensures Closest(t', x, ATTRS) == Closest(t, x, ATTRS) {
      SameValuesSameClosest(t, t', x, ATTRS);
    }
    if j == 0 {
      NeverAttributed(t', handles[1..], k);
    } else {
      LastAttributed(t', handles[1..], k, j - 1);
    }
  }

  lemma {:induction false} OwnCccMembers(chars: seq<Characteristic>, h: nat)
    ensures h in OwnCccs(chars) <==> exists i :: 0 <= i < |chars| && chars[i].ccc == Some(h)
  {
    if chars != [] {
      OwnCccMembers(chars[1..], h);
      if h in OwnCccs(chars[1..]) {
        var i :| 0 <= i < |chars[1..]| && chars[1..][i].ccc == Some(h);
        assert chars[i + 1].ccc == Some(h);
      }
      if i :| 0 <= i < |chars| && chars[i].ccc == Some(h) {
        if i > 0 {
          assert chars[1..][i - 1].ccc == Some(h);
        }
      }
    }
  }

  lemma {:induction false} FromMembers(handles: seq<nat>, start: nat, h: nat)
    ensures h in From(handles, start) <==> h in handles && h >= start
  {
    if handles != [] {
      FromMembers(handles[1..], start, h);
    }
  }

  lemma OwnCccsCons(c: Characteristic, rest: seq<Characteristic>)
    ensures OwnCccs([c] + rest) == (if c.ccc.Some? then [c.ccc.value] else []) + OwnCccs(rest)
  {
    assert ([c] + rest)[1..] == rest;
  }

  lemma {:induction false} OwnCccsConcat(a: seq<Characteristic>, c: seq<Characteristic>)
    ensures OwnCccs(a + c) == OwnCccs(a) + OwnCccs(c)
  {
    if a == [] {
      assert a + c == c;
    } else {
      hide OwnCccs;
      var h, rest := a[0], a[1..];
      OwnCccsConcat(rest, c);
      assert a == [h] + rest && a + c == [h] + (rest + c);
      OwnCccsCons(h, rest);
      OwnCccsCons(h, rest + c);
      var own := if h.ccc.Some? then [h.ccc.value] else [];
      assert own + (OwnCccs(rest) + OwnCccs(c)) == own + OwnCccs(rest) + OwnCccs(c);
    }
  }

  lemma FromCons(h: nat, rest: seq<nat>, start: nat)
    ensures From([h] + rest, start) == (if h >= start then [h] else []) + From(rest, start)
  {
    assert ([h] + rest)[1..] == rest;
  }

  lemma {:induction false} FromConcat(a: seq<nat>, c: seq<nat>, start: nat)
    ensures From(a + c, start) == From(a, start) + From(c, start)
  {
    if a == [] {
      assert a + c == c;
    } else {
      hide From;
      var h, rest := a[0], a[1..];
      FromConcat(rest, c, start);
      assert a == [h] + rest && a + c == [h] + (rest + c);
      FromCons(h, rest, start);
      FromCons(h, rest + c, start);
      var kept := if h >= start then [h] else [];
      assert kept + (From(rest, start) + From(c, start)) == kept + From(rest, start) + From(c, start);
    }
  }

  // ----- Whose descriptor is whose

  /** Known characteristic i is the last known one up to characteristic n. */
  predicate LastKnown(l: Layout, n: nat, i: nat)
    requires n < |l.chars|
  {
    i <= n && Known(l, i) && forall j :: i < j <= n ==> !Known(l, j)
  }

  /** The CCC descriptor of characteristic n is closest to known characteristic i iff i is the last known up to n. */
  lemma ClosestIsLastKnown(l: Layout, n: nat, i: nat)
    requires WellFormed(l) && n < |l.chars| && i < |l.chars| && l.chars[n].ccc.Some? && Known(l, i)
    ensures Closest(Noted(l), l.chars[n].ccc.value, ATTRS) == IndexOf(l.chars[i].uuid) <==> LastKnown(l, n, i)
  {
    hide NoteAll, Closest;
    var t, k, h := Noted(l), IndexOf(l.chars[i].uuid).value, l.chars[n].ccc.value;
    NoteAllNotes(EMPTY_TABLE, l.chars, i);
    if LastKnown(l, n, i) {
      forall x | 0 <= x < ATTRS && t[x].value < h && x != k ensures t[x].value < t[k].value {
        if t[x].value != 0 {
          var j := NotedBy(l, x);
          assert Known(l, j) && j != i;
          Apart(l, n, j);
          Apart(l, j, i);
        }
      }
      ClosestIsUnique(t, h, ATTRS, k);
    } else if i <= n {
      var j :| i < j <= n && Known(l, j);
      NoteAllNotes(EMPTY_TABLE, l.chars, j);
      assert t[IndexOf(l.chars[j].uuid).value].value < h;
    }
  }

  /** A descriptor in front of the service is closest to nothing that was discovered. */
  lemma ForeignIsNotClosest(l: Layout, h: nat, k: nat)
    requires WellFormed(l) && 0 < h < l.handle && k < ATTRS && Noted(l)[k].value != 0
    ensures Closest(Noted(l), h, ATTRS) != Some(k)
  {
    var _ := NotedBy(l, k);
  }

  predicate AllDiscovered(t: Table) {
    forall k :: 0 <= k < ATTRS ==> t[k].value != 0
  }

  /** The service has a characteristic with this UUID. */
  predicate Has(l: Layout, uuid: Uuid) {
    exists j :: 0 <= j < |l.chars| && l.chars[j].uuid == uuid
  }

  /** An entry is set exactly if the service has its characteristic. */
  lemma NotedExactly(l: Layout, uuid: Uuid)
    requires WellFormed(l) && IndexOf(uuid).Some?
    ensures Noted(l)[IndexOf(uuid).value].value != 0 <==> Has(l, uuid)
  {
    var k := IndexOf(uuid).value;
    if j :| 0 <= j < |l.chars| && l.chars[j].uuid == uuid {
      NoteAllNotes(EMPTY_TABLE, l.chars, j);
    } else {
      assert forall j :: 0 <= j < |l.chars| && IndexOf(l.chars[j].uuid) == Some(k) ==> l.chars[j].uuid == CHAR_UUIDS[k];
      NoteAllKeeps(EMPTY_TABLE, l.chars, k);
    }
  }

  /** The search for descriptors takes place exactly if the service has an uplink and a downlink. */
  lemma UsableExactly(l: Layout)
    requires WellFormed(l)
    ensures Usable(Noted(l)) <==> Has(l, Uplink) && Has(l, Downlink)
  {
    NotedExactly(l, Uplink);
    NotedExactly(l, Downlink);
    hide Noted, Has;
  }

  /**
   * The one descriptor the search skips: that of the first known characteristic, right behind its
   * value, when the service has all five.
   */
  predicate Skipped(l: Layout, i: nat)
    requires i < |l.chars|
  {
    && (forall k :: 0 <= k < ATTRS ==> Has(l, CHAR_UUIDS[k]))
    && (forall j :: 0 <= j < i ==> !Known(l, j))
    && l.chars[i].ccc == Some(l.chars[i].value + 1)
  }

  lemma AllDiscoveredExactly(l: Layout)
    requires WellFormed(l)
    ensures AllDiscovered(Noted(l)) <==> forall k :: 0 <= k < ATTRS ==> Has(l, CHAR_UUIDS[k])
  {
    hide Has, NoteAll;
    forall k | 0 <= k < ATTRS ensures Noted(l)[k].value != 0 <==> Has(l, CHAR_UUIDS[k]) {
      assert IndexOf(CHAR_UUIDS[k]) == Some(k);
      NotedExactly(l, CHAR_UUIDS[k]);
    }
  }

  /** The lowest value handle is that of the first known characteristic. */
  lemma LowestIsFirst(l: Layout, i: nat)
    requires WellFormed(l) && i < |l.chars| && Known(l, i) && AllDiscovered(Noted(l))
    ensures l.chars[i].value == LeastValue(Noted(l), l.end, ATTRS) <==> forall j :: 0 <= j < i ==> !Known(l, j)
  {
    hide NoteAll, LeastValue;
    var t := Noted(l);
    var least := LeastValue(t, l.end, ATTRS);
    NoteAllNotes(EMPTY_TABLE, l.chars, i);
    if j :| 0 <= j < i && Known(l, j) {
      NoteAllNotes(EMPTY_TABLE, l.chars, j);
      Apart(l, j, i);
    } else {
      LeastIsSomeones(l);
      var k :| 0 <= k < ATTRS && least == t[k].value;
      var j := NotedBy(l, k);
      assert Known(l, j);
      Apart(l, i, j);
    }
  }

  lemma LeastIsSomeones(l: Layout)
    requires WellFormed(l) && AllDiscovered(Noted(l))
    ensures exists k :: 0 <= k < ATTRS && LeastValue(Noted(l), l.end, ATTRS) == Noted(l)[k].value
  {
    hide NoteAll, LeastValue;
    var j := NotedBy(l, 0);
    if LeastValue(Noted(l), l.end, ATTRS) == l.end {
      assert Noted(l)[0].value == l.end;
    }
  }

  /** The search starts two behind the lowest value of all five, or at 2. */
  lemma StartsAt(l: Layout)
    requires WellFormed(l)
    ensures StartHandle(Noted(l), l.end) ==
            if AllDiscovered(Noted(l)) then LeastValue(Noted(l), l.end, ATTRS) + 2 else 2
  {
    hide NoteAll, LeastValue;
    if AllDiscovered(Noted(l)) {
      LeastIsSomeones(l);
      var k :| 0 <= k < ATTRS && LeastValue(Noted(l), l.end, ATTRS) == Noted(l)[k].value;
      var j := NotedBy(l, k);
      AnotherIsHigher(l, j);
    } else {
      assert LeastValue(Noted(l), l.end, ATTRS) == 0;
    }
  }

  /** Which descriptors behind known characteristics the search reaches. */
  lemma StartReaches(l: Layout, n: nat, i: nat)
    requires WellFormed(l) && n < |l.chars| && LastKnown(l, n, i) && l.chars[n].ccc.Some?
    ensures l.chars[n].ccc.value >= StartHandle(Noted(l), l.end) <==> !(n == i && Skipped(l, i))
  {
    hide NoteAll, LeastValue, StartHandle, Has, AllDiscovered;
    AllDiscoveredExactly(l);
    StartsAt(l);
    NoteAllNotes(EMPTY_TABLE, l.chars, i);
    Apart(l, i, n);
    if AllDiscovered(Noted(l)) {
      LowestIsFirst(l, i);
    }
  }

  /** With all five discovered the lowest value is far from the end of the handle range. */
  lemma AnotherIsHigher(l: Layout, j: nat)
    requires WellFormed(l) && j < |l.chars| && Known(l, j)
    requires AllDiscovered(Noted(l)) && l.chars[j].value == LeastValue(Noted(l), l.end, ATTRS)
    ensures l.chars[j].value + 2 < HANDLE_MODULUS
  {
    var k := if IndexOf(l.chars[j].uuid) == Some(0) then 1 else 0;
    var m := NotedBy(l, k);
    Apart(l, j, m);
    hide NoteAll;
  }

  // ----- The outcome

  /** An unknown characteristic behind known characteristic i has a CCC descriptor. */
  predicate Overwritten(l: Layout, i: nat)
    requires i < |l.chars|
  {
    exists m :: i < m < |l.chars| && LastKnown(l, m, i) && l.chars[m].ccc.Some?
  }

  /** The last CCC descriptor closest to known characteristic i is that of characteristic m. */
  predicate Final(l: Layout, i: nat, m: nat)
    ensures Final(l, i, m) ==> m < |l.chars|
  {
    && m < |l.chars| && LastKnown(l, m, i) && l.chars[m].ccc.Some?
    && forall n :: m < n < |l.chars| && LastKnown(l, n, i) ==> l.chars[n].ccc.None?
  }

  lemma FinalExists(l: Layout, i: nat, n: nat) returns (m: nat)
    requires n < |l.chars| && LastKnown(l, n, i) && l.chars[n].ccc.Some?
    ensures n <= m && Final(l, i, m)
    decreases |l.chars| - n
  {
    if n' :| n < n' < |l.chars| && LastKnown(l, n', i) && l.chars[n'].ccc.Some? {
      m := FinalExists(l, i, n');
    } else {
      m := n;
    }
  }

  /** A descriptor reported is a foreign one or that of a characteristic. */
  lemma ReportedIs(l: Layout, h: nat)
    requires WellFormed(l) && h in From(l.foreign + OwnCccs(l.chars), StartHandle(Noted(l), l.end))
    ensures h >= StartHandle(Noted(l), l.end)
    ensures 0 < h < l.handle || exists n :: 0 <= n < |l.chars| && l.chars[n].ccc == Some(h)
  {
    FromMembers(l.foreign + OwnCccs(l.chars), StartHandle(Noted(l), l.end), h);
    OwnCccMembers(l.chars, h);
  }

  /** The final descriptor, if reached, is the one recorded. */
  lemma FinalIsRecorded(l: Layout, i: nat, m: nat)
    requires WellFormed(l) && Final(l, i, m) && l.chars[m].ccc.value >= StartHandle(Noted(l), l.end)
    ensures AttributeAll(Noted(l), Reported(l))[IndexOf(l.chars[i].uuid).value]
         == AttrHandle(l.chars[i].value, l.chars[m].ccc.value)
  {
    hide NoteAll, Closest, StartHandle;
    var t, k, h, start := Noted(l), IndexOf(l.chars[i].uuid).value, l.chars[m].ccc.value, StartHandle(Noted(l), l.end);
    var front, back := l.chars[..m], l.chars[m + 1..];
    var before, after := From(l.foreign + OwnCccs(front), start), From(OwnCccs(back), start);
    SplitReported(l, m);
    ClosestIsLastKnown(l, m, i);
    NoteAllNotes(EMPTY_TABLE, l.chars, i);
    forall x | 0 <= x < |after| ensures Closest(t, after[x], ATTRS) != Some(k) {
      FromMembers(OwnCccs(back), start, after[x]);
      OwnCccMembers(back, after[x]);
      var n :| 0 <= n < |back| && back[n].ccc == Some(after[x]);
      ClosestIsLastKnown(l, m + 1 + n, i);
    }
    LastAttributed(t, before + [h] + after, k, |before|);
  }

  lemma SplitReported(l: Layout, m: nat)
    requires m < |l.chars| && l.chars[m].ccc.Some? && l.chars[m].ccc.value >= StartHandle(Noted(l), l.end)
    ensures var start := StartHandle(Noted(l), l.end);
            Reported(l) == From(l.foreign + OwnCccs(l.chars[..m]), start) + [l.chars[m].ccc.value]
                         + From(OwnCccs(l.chars[m + 1..]), start)
  {
    var start, c, front, back := StartHandle(Noted(l), l.end), l.chars[m], l.chars[..m], l.chars[m + 1..];
    assert l.chars == front + ([c] + back);
    OwnCccsConcat(front, [c] + back);
    OwnCccsConcat([c], back);
    assert OwnCccs([c]) == [c.ccc.value] + OwnCccs([]) == [c.ccc.value];
    assert l.foreign + OwnCccs(l.chars) == l.foreign + OwnCccs(front) + ([c.ccc.value] + OwnCccs(back));
    FromConcat(l.foreign + OwnCccs(front), [c.ccc.value] + OwnCccs(back), start);
    FromConcat([c.ccc.value], OwnCccs(back), start);
    assert From([c.ccc.value], start) == [c.ccc.value] + From([], start) == [c.ccc.value];
  }

  /** Nothing is recorded if only its own descriptor is closest, and that one is skipped. */
  lemma NoneIsRecorded(l: Layout, i: nat)
    requires WellFormed(l) && i < |l.chars| && Known(l, i) && !Overwritten(l, i)
    requires l.chars[i].ccc.Some? ==> Skipped(l, i)
    ensures AttributeAll(Noted(l), Reported(l))[IndexOf(l.chars[i].uuid).value] == AttrHandle(l.chars[i].value, 0)
  {
    var t, k, reported := Noted(l), IndexOf(l.chars[i].uuid).value, Reported(l);
    NoteAllNotes(EMPTY_TABLE, l.chars, i);
    forall j | 0 <= j < |reported| ensures Closest(t, reported[j], ATTRS) != Some(k) {
      var h := reported[j];
      ReportedIs(l, h);
      if n :| 0 <= n < |l.chars| && l.chars[n].ccc == Some(h) {
        ClosestIsLastKnown(l, n, i);
        if LastKnown(l, n, i) {
          StartReaches(l, n, i);
        }
      } else {
        ForeignIsNotClosest(l, h, k);
      }
    }
    NeverAttributed(t, reported, k);
  }

  /**
   * After discovery of any service layout, every known characteristic has its own value handle.
   * Without uplink and downlink no CCC handle is recorded. Otherwise, exactly if an unknown
   * characteristic with a CCC descriptor follows before the next known one, the last such
   * descriptor is recorded instead of its own; if not, its own is recorded exactly if it has one
   * that is not the skipped one, and no other ever is.
   */
  lemma CccAttribution(l: Layout, i: nat)
    requires WellFormed(l) && i < |l.chars| && Known(l, i)
    ensures var e := Discovered(l)[IndexOf(l.chars[i].uuid).value];
            && e.value == l.chars[i].value
            && (if !Has(l, Uplink) || !Has(l, Downlink) then e.ccc == 0
                else if Overwritten(l, i) then exists m :: i < m && Final(l, i, m) && l.chars[m].ccc == Some(e.ccc)
                else e.ccc == if l.chars[i].ccc.Some? && !Skipped(l, i) then l.chars[i].ccc.value else 0)
  {
    NoteAllNotes(EMPTY_TABLE, l.chars, i);
    UsableExactly(l);
    hide NoteAll, AttributeAll, Reported, StartHandle, Has;
    if Usable(Noted(l)) {
      if Overwritten(l, i) {
        var n :| i < n < |l.chars| && LastKnown(l, n, i) && l.chars[n].ccc.Some?;
        var m := FinalExists(l, i, n);
        StartReaches(l, m, i);
        FinalIsRecorded(l, i, m);
      } else if l.chars[i].ccc.Some? && !Skipped(l, i) {
        assert Final(l, i, i);
        StartReaches(l, i, i);
        FinalIsRecorded(l, i, i);
      } else {
        NoneIsRecorded(l, i);
      }
    }
  }

  const OVERLAID := Layout([], 1, [Characteristic(Downlink, 3, None, 3), Characteristic(Uplink, 5, Some(6), 6),
                                   Characteristic(Other(0), 8, Some(9), 9)], 9)

  /** An unknown characteristic behind the uplink's takes over its CCC handle: 9 is recorded in place of 6. */
  lemma UnknownOverwrites()
    ensures var l := OVERLAID;
            && WellFormed(l) && Has(l, Uplink) && Has(l, Downlink)
            && Overwritten(l, 1) && Discovered(l)[2] == AttrHandle(5, 9)
  {
    hide NoteAll, Discovered, Final;
    var l := OVERLAID;
    assert WellFormed(l);
    assert l.chars[0].uuid == Downlink && l.chars[1].uuid == Uplink;
    assert LastKnown(l, 2, 1);
    CccAttribution(l, 1);
    var m :| 1 < m && Final(l, 1, m) && l.chars[m].ccc == Some(Discovered(l)[2].ccc);
  }
}
