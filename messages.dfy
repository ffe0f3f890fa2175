/** The decoder's view of a telemetry log, shared by every reader of the core.
    pymavlink itself is not modelled: a log is what its decoder yields, message by
    message, together with the file positions reported around each read. */
module Messages {

  type Byte = b: int | 0 <= b < 256

  datatype Option<T> = None | Some(value: T)

  datatype Result<T, E> = Ok(value: T) | Err(error: E)

  /** A decoded message: its type name (get_type()), its attributes, and the raw
      record bytes (_buf) when the decoder keeps them. An attribute that exists
      with the value None maps to None; an attribute that does not exist is not a key. */
  datatype Message = Message(kind: string, attrs: map<string, Option<real>>, buf: Option<seq<Byte>>)

  /** hasattr(m, name) */
  predicate HasAttr(m: Message, name: string) {
    name in m.attrs
  }

  /** getattr(m, name, None): None both for a missing attribute and for one set to None. */
  function Attr(m: Message, name: string): (r: Option<real>)
    ensures r.Some? ==> HasAttr(m, name)
    ensures !HasAttr(m, name) ==> r.None?
  {
    if name in m.attrs then m.attrs[name] else None
  }

  /** One call of the decoder that returned a message, with the file position
      (tell()) right after it. */
  datatype Read = Read(msg: Message, tellAfter: nat)

  /** A whole decoding pass: the file position before the first read, then every
      read up to the one that returned None. */
  datatype Trace = Trace(origin: nat, decoded: seq<Read>)

  /** The file position right before the i-th read. */
  function TellBefore(t: Trace, i: nat): nat
    requires i <= |t.decoded|
  {
    if i == 0 then t.origin else t.decoded[i - 1].tellAfter
  }

  /** Consecutive slices of a sequence join into one. */
  lemma SliceSplit<T>(s: seq<T>, i: nat, j: nat, k: nat)
    requires i <= j <= k <= |s|
    ensures s[i..k] == s[i..j] + s[j..k]
  {
  }

  /** An entry of a timestamp table: an attribute name and the number of its units per second. */
  datatype Candidate = Candidate(field: string, divisor: real)

  /** The index of the first candidate whose attribute is present and not None,
      or |table| when there is none. */
  function FirstValued(m: Message, table: seq<Candidate>): (i: nat)
    ensures i <= |table|
    ensures i < |table| ==> Attr(m, table[i].field).Some?
    ensures forall j :: 0 <= j < i ==> Attr(m, table[j].field).None?
  {
    if table == [] then 0
    else if Attr(m, table[0].field).Some? then 0
    else 1 + FirstValued(m, table[1..])
  }

  /** The index of the first candidate whose attribute is present (whatever its
      value), or |table| when there is none. */
  function FirstPresent(m: Message, table: seq<Candidate>): (i: nat)
    ensures i <= |table|
    ensures i < |table| ==> HasAttr(m, table[i].field)
    ensures forall j :: 0 <= j < i ==> !HasAttr(m, table[j].field)
  {
    if table == [] then 0
    else if HasAttr(m, table[0].field) then 0
    else 1 + FirstPresent(m, table[1..])
  }

  /** The arguments a progress callback receives when it fires for every k in
      [lo, hi) with k % step == 0, in the order they are reported. */
  function MultiplesIn(lo: nat, hi: nat, step: int): (r: seq<nat>)
    requires step != 0
    ensures forall a :: 0 <= a < |r| ==> lo <= r[a] < hi
    decreases hi
  {
    if hi <= lo then []
    else MultiplesIn(lo, hi - 1, step) + (if (hi - 1) % step == 0 then [hi - 1] else [])
  }

  /** The callback fires at exactly the multiples of step in [lo, hi), in increasing order. */
  lemma {:induction false} MultiplesInMembers(lo: nat, hi: nat, step: int)
    requires step != 0
    ensures forall k :: k in MultiplesIn(lo, hi, step) <==> lo <= k < hi && k % step == 0
    ensures forall a, b :: 0 <= a < b < |MultiplesIn(lo, hi, step)| ==> MultiplesIn(lo, hi, step)[a] < MultiplesIn(lo, hi, step)[b]
    decreases hi
  {
    if lo < hi {
      MultiplesInMembers(lo, hi - 1, step);
    }
  }

  /** One more position either adds itself, when it is a multiple, or nothing. */
  lemma MultiplesSnoc(lo: nat, hi: nat, step: int)
    requires step != 0
    ensures MultiplesIn(lo, hi + 1, step) == MultiplesIn(lo, hi, step) + (if lo <= hi && hi % step == 0 then [hi] else [])
  {
  }

  lemma {:induction false} ProductAtLeast(k: int, d: int)
    requires 1 <= k && 0 < d
    ensures k * d >= d
    decreases k
  {
    if k > 1 {
      ProductAtLeast(k - 1, d);
      assert k * d == (k - 1) * d + d;
    }
  }

  /** Division and remainder are determined by the quotient-remainder equation. */
  lemma DivModUnique(n: int, d: int, q: int, r: int)
    requires 0 < d && 0 <= r < d && n == q * d + r
    ensures n / d == q && n % d == r
  {
    var q', r' := n / d, n % d;
    assert n == q' * d + r';
    assert (q - q') * d == q * d - q' * d;
    assert (q - q') * d == r' - r;
    if q > q' {
      ProductAtLeast(q - q', d);
    } else if q < q' {
      ProductAtLeast(q' - q, d);
    }
  }

  /** A negative step has the same multiples as its absolute value. */
  lemma ModNegative(n: int, d: int)
    requires d < 0
    ensures n % d == n % -d
  {
    DivModUnique(n, -d, -(n / d), n % d);
  }

  /** Counting up by one adds a multiple exactly when the new count is one. */
  lemma DivStep(n: nat, d: int)
    requires 1 <= n && 0 < d
    ensures n / d == (n - 1) / d + (if n % d == 0 then 1 else 0)
  {
    var q, r := (n - 1) / d, (n - 1) % d;
    if r + 1 < d {
      DivModUnique(n, d, q, r + 1);
    } else {
      DivModUnique(n, d, q + 1, 0);
    }
  }

  /** Among 1..n, one number in every |step| is a multiple of step. */
  lemma {:induction false} MultiplesCount(n: nat, step: int)
    requires step != 0
    ensures |MultiplesIn(1, n + 1, step)| == n / (if step < 0 then -step else step)
  {
    if n > 0 {
      MultiplesCount(n - 1, step);
      var d := if step < 0 then -step else step;
      DivStep(n, d);
      if step < 0 {
        ModNegative(n, step);
      }
    }
  }
}
