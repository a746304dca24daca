/**
 * Nonce allocation from a counter file shared by any number of processes: a 192-bit big-endian
 * counter kept as hexadecimal text, read and replaced under an exclusive file lock.
 */
module Nonces {
  import opened Wrappers
  import opened Sequences
  import opened Utf8
  import opened Numbers
  import opened Envelopes
  import Runs

  type Nonce = s: seq<byte> | |s| == NONCE_LEN witness seq(NONCE_LEN, i => 0)

  // ----- the carry loop -----

  function Zeros(n: nat): seq<byte> {
    seq(n, i => 0)
  }

  /** Add one to the last byte and carry leftwards out of every byte that wraps to zero. */
  function Successor(s: seq<byte>): (r: seq<byte>)
    ensures |r| == |s|
  {
    if s == [] then []
    else
      var last := |s| - 1;
      if s[last] < 255 then s[..last] + [s[last] + 1] else Successor(s[..last]) + [0]
  }

  /** The carry adds one to the number, modulo 256 to the length. */
  lemma {:induction false} SuccessorAddsOne(s: seq<byte>)
    ensures BigEndian(Successor(s)) == if BigEndian(s) + 1 == Power256(|s|) then 0 else BigEndian(s) + 1
  {
    if s != [] {
      var last := |s| - 1;
      var r := Successor(s);
      SuccessorAddsOne(s[..last]);
      if s[last] < 255 {
        assert r[..last] == s[..last];
      } else {
        assert r[..last] == Successor(s[..last]);
      }
    }
  }

  lemma {:induction false} AllZeroIsZero(n: nat)
    ensures BigEndian(Zeros(n)) == 0
  {
    if n > 0 {
      AllZeroIsZero(n - 1);
      assert Zeros(n)[..n - 1] == Zeros(n - 1);
    }
  }

  lemma {:induction false} ZeroIsAllZero(s: seq<byte>)
    requires BigEndian(s) == 0
    ensures s == Zeros(|s|)
  {
    if s != [] {
      ZeroIsAllZero(s[..|s| - 1]);
      assert s == s[..|s| - 1] + [s[|s| - 1]];
    }
  }

  /** The carry comes out all zero exactly for the largest number, which is all `0xff`. */
  lemma SuccessorWraps(s: seq<byte>)
    ensures Successor(s) == Zeros(|s|) <==> BigEndian(s) + 1 == Power256(|s|)
    ensures Successor(s) == Zeros(|s|) <==> forall i :: 0 <= i < |s| ==> s[i] == 255
  {
    SuccessorAddsOne(s);
    AllZeroIsZero(|s|);
    if BigEndian(Successor(s)) == 0 {
      ZeroIsAllZero(Successor(s));
    }
    WrapsExactlyAllOnes(s);
  }

  lemma {:induction false} WrapsExactlyAllOnes(s: seq<byte>)
    ensures Successor(s) == Zeros(|s|) <==> forall i :: 0 <= i < |s| ==> s[i] == 255
  {
    if s != [] {
      var last := |s| - 1;
      var r := Successor(s);
      WrapsExactlyAllOnes(s[..last]);
      assert Zeros(|s|)[..last] == Zeros(last) && Zeros(|s|)[last] == 0;
      if s[last] == 255 {
        assert r[..last] == Successor(s[..last]);
        assert r == Zeros(|s|) <==> r[..last] == Zeros(last);
      } else {
        assert r[last] != 0;
      }
    }
  }

  method Increment(following: array<byte>)
    modifies following
    ensures following[..] == Successor(old(following[..]))
  {
    ghost var before := following[..];
    var i := following.Length;
    assert before[..i] == before;
    while i > 0
      invariant 0 <= i <= following.Length
      invariant following[..i] == before[..i]
      invariant Successor(before) == Successor(before[..i]) + Zeros(following.Length - i)
      invariant following[i..] == Zeros(following.Length - i)
    {
      i := i - 1;
      ghost var head := before[..i + 1];
      assert head[..i] == before[..i] && head[i] == following[i];
      following[i] := if following[i] == 255 then 0 else following[i] + 1;
      assert following[i + 1..] == Zeros(following.Length - i - 1);
      if following[i] != 0 {
        assert Successor(head) == following[..i + 1];
        assert following[..] == following[..i + 1] + following[i + 1..];
        return;
      }
      assert Successor(head) == Successor(before[..i]) + [0];
      assert [0] + Zeros(following.Length - i - 1) == Zeros(following.Length - i);
      assert following[i..] == [0] + following[i + 1..];
    }
    assert following[..] == following[0..];
  }

  // ----- the text of the state file -----

  /**
   * `decode_nonce`: 24 pairs of hexadecimal characters. Text that is not ASCII yields nothing
   * either, since some pair is then no pair of digits.
   */
  function DecodeNonce(text: string): Option<Nonce> {
    if |Encode(text)| != 48 || |text| != 48 then None
    else
      var bytes :- DecodePairs(text);
      if |bytes| == NONCE_LEN then Some(bytes) else None
  }

  function DecodePairs(text: string): Option<seq<byte>>
    requires |text| % 2 == 0
  {
    if text == [] then Some([])
    else
      var first :- ParseHexPair(text[0], text[1]);
      var rest :- DecodePairs(text[2..]);
      Some([first] + rest)
  }

  lemma {:induction false} DecodePairsOfHex(bytes: seq<byte>)
    ensures DecodePairs(Hex(bytes)) == Some(bytes)
  {
    if bytes != [] {
      ParseHexPairOfDigits(bytes[0]);
      DecodePairsOfHex(bytes[1..]);
      assert bytes == [bytes[0]] + bytes[1..];
      assert Hex(bytes)[2..] == Hex(bytes[1..]);
    }
  }

  /** Whatever counter is written to the file is the counter the next reader sees. */
  lemma StoredNonceReadsBack(value: Nonce)
    ensures DecodeNonce(Trim(Hex(value))) == Some(value)
  {
    var text := Hex(value);
    assert text[0] in text && text[47] in text;
    TrimSolid(text);
    AsciiBytes(text);
    DecodePairsOfHex(value);
  }

  predicate IsPair(first: char, second: char) {
    IsHexDigit(second) && (IsHexDigit(first) || first == '+')
  }

  /** The byte that a pair spells; a `+` counts for nothing. */
  function PairValue(first: char, second: char): nat
    requires IsPair(first, second)
  {
    (if first == '+' then 0 else HexDigitValue(first) * 16) + HexDigitValue(second)
  }

  predicate SpellsByte(text: string, k: nat, b: byte)
    requires 2 * k + 1 < |text|
  {
    IsPair(text[2 * k], text[2 * k + 1]) && PairValue(text[2 * k], text[2 * k + 1]) == b
  }

  lemma {:induction false} DecodesPairsIff(text: string, bytes: seq<byte>)
    requires |text| % 2 == 0
    ensures DecodePairs(text) == Some(bytes) <==> SpellsBytes(text, bytes)
  {
    if text != [] {
      if bytes != [] {
        DecodesPairsIff(text[2..], bytes[1..]);
        SpellsFirstAndRest(text, bytes);
        assert bytes == [bytes[0]] + bytes[1..];
      }
    }
  }

  predicate SpellsBytes(text: string, bytes: seq<byte>) {
    |text| == 2 * |bytes| && forall k: nat :: k < |bytes| ==> SpellsByte(text, k, bytes[k])
  }

  lemma {:induction false} SpellsFirstAndRest(text: string, bytes: seq<byte>)
    requires |text| >= 2 && bytes != []
    ensures SpellsBytes(text, bytes) <==> SpellsByte(text, 0, bytes[0]) && SpellsBytes(text[2..], bytes[1..])
  {
    var rest, later := text[2..], bytes[1..];
    assert forall k: nat :: k < |later| && 2 * k + 1 < |rest| ==>
      (SpellsByte(rest, k, later[k]) <==> SpellsByte(text, k + 1, bytes[k + 1]));
    if SpellsByte(text, 0, bytes[0]) && SpellsBytes(rest, later) {
      forall k: nat | k < |bytes| ensures SpellsByte(text, k, bytes[k]) {
        assert k > 0 ==> SpellsByte(rest, k - 1, later[k - 1]);
      }
    }
    if SpellsBytes(text, bytes) {
      forall k: nat | k < |later| ensures SpellsByte(rest, k, later[k]) {
        assert SpellsByte(text, k + 1, bytes[k + 1]);
      }
    }
  }

  lemma {:induction false} PairsAreAscii(text: string, bytes: seq<byte>)
    requires |text| == 2 * |bytes| && forall k: nat :: k < |bytes| ==> SpellsByte(text, k, bytes[k])
    ensures |Encode(text)| == |text|
  {
    forall c | c in text ensures c as int < 0x80 {
      var i :| 0 <= i < |text| && text[i] == c;
      assert SpellsByte(text, i / 2, bytes[i / 2]);
    }
    AsciiBytes(text);
  }

  /** Exactly which texts spell a counter: 48 characters, each pair two hexadecimal digits or `+` and one. */
  lemma {:induction false} DecodesNonceIff(text: string, value: Nonce)
    ensures DecodeNonce(text) == Some(value) <==>
      |text| == 48 && forall k: nat :: k < |value| ==> SpellsByte(text, k, value[k])
  {
    if |text| == 48 {
      DecodesPairsIff(text, value);
      if forall k: nat :: k < |value| ==> SpellsByte(text, k, value[k]) {
        PairsAreAscii(text, value);
      }
    }
  }

  // ----- one allocation -----

  /** What a reader makes of the file: its counter, or the random value drawn when there is none. */
  function Counter(file: Option<string>, drawn: Nonce): Option<Nonce> {
    match file
    case Some(text) => DecodeNonce(Trim(text))
    case None => Some(drawn)
  }

  predicate Exhausted(value: Nonce) {
    BigEndian(value) + 1 == Power256(|value|)
  }

  lemma SuccessorUnlessExhausted(value: Nonce)
    ensures Exhausted(value) <==> Successor(value) == Zeros(|value|)
    ensures !Exhausted(value) ==> BigEndian(Successor(value)) == BigEndian(value) + 1
  {
    SuccessorWraps(value);
    SuccessorAddsOne(value);
  }

  class StateFile {
    var text: Option<string>

    constructor (text: Option<string>)
      ensures this.text == text
    {
      this.text := text;
    }
  }

  class FileNonceAllocator {
    const file: StateFile
    var next: Nonce

    constructor (file: StateFile, next: Nonce)
      ensures this.file == file && this.next == next
    {
      this.file := file;
      this.next := next;
    }

    /**
     * One call that holds the lock throughout and meets no I/O error. Without a file it returns the value
     * drawn; a file that spells no counter makes it fail.
     */
    method Allocate(drawn: Nonce) returns (r: Result<Nonce, CryptoError>)
      modifies this, file
      ensures old(file.text) == None && BigEndian(drawn) + 1 < Power256(|drawn|) ==>
        r == Ok(drawn) && file.text == Some(Hex(next)) && BigEndian(next) == BigEndian(drawn) + 1
      ensures old(file.text).Some? && DecodeNonce(Trim(old(file.text).value)) == None ==>
        r == Err(NonceReuse) && file.text == old(file.text) && next == old(next)
      ensures match Counter(old(file.text), drawn)
        case None => r == Err(NonceReuse) && file.text == old(file.text) && next == old(next)
        case Some(value) =>
          if Exhausted(value) then r == Err(NonceReuse) && file.text == old(file.text) && next == old(next)
          else r == Ok(value) && file.text == Some(Hex(next)) && BigEndian(next) == BigEndian(value) + 1
    {
      var issued := Counter(file.text, drawn);
      if issued == None {
        return Err(NonceReuse);
      }
      var following := Following(issued.value);
      SuccessorUnlessExhausted(issued.value);
      if following == Zeros(|following|) {
        return Err(NonceReuse);
      }
      file.text := Some(Hex(following));
      next := following;
      return Ok(issued.value);
    }
  }

  method Following(issued: Nonce) returns (following: Nonce)
    ensures following == Successor(issued)
  {
    var bytes := new byte[|issued|](i requires 0 <= i < |issued| => issued[i]);
    assert bytes[..] == issued;
    Increment(bytes);
    following := bytes[..];
  }

  // ----- many processes on one file -----

  /** How far the process that holds the lock has got with its call. */
  datatype Progress = Locked | HasRead(issued: Nonce) | Renamed(issued: Nonce)

  /** At most one process is inside the lock; `returned` lists every nonce ever handed out, in order. */
  datatype System = System(file: Option<string>, holder: Option<(nat, Progress)>, returned: seq<Nonce>)

  /** `Abort` is a crash or an error return at any point: the lock goes, the file stays as it is. */
  datatype Action =
    | Lock(process: nat)
    | Read(process: nat, drawn: Nonce)
    | Rename(process: nat)
    | Return(process: nat)
    | Abort(process: nat)

  function Step(s: System, a: Action): System {
    match s.holder
    case None => if a.Lock? then s.(holder := Some((a.process, Locked))) else s
    case Some((holder, progress)) =>
      if a.process != holder then s
      else
        match (a, progress)
        case (Read(_, drawn), Locked) =>
          (match Counter(s.file, drawn)
           case None => s.(holder := None)
           case Some(value) => s.(holder := Some((holder, HasRead(value)))))
        case (Rename(_), HasRead(value)) =>
          if Successor(value) == Zeros(|value|) then s.(holder := None)
          else s.(file := Some(Hex(Successor(value))), holder := Some((holder, Renamed(value))))
        case (Return(_), Renamed(value)) => s.(holder := None, returned := s.returned + [value])
        case (Abort(_), _) => s.(holder := None)
        case _ => s
  }

  function StateAt(file: Option<string>, actions: seq<Action>, n: nat): System
    requires n <= |actions|
  {
    Runs.StateAt(Step, System(file, None, []), actions, n)
  }

  lemma NextState(file: Option<string>, actions: seq<Action>, n: nat)
    requires n < |actions|
    ensures StateAt(file, actions, n + 1) == Step(StateAt(file, actions, n), actions[n])
  {}

  predicate FileHolds(s: System, value: Nonce) {
    s.file == Some(Hex(value))
  }

  /** The file's counter, read as a number, is above every nonce handed out. */
  ghost predicate AboveReturned(value: Nonce, returned: seq<Nonce>) {
    forall i :: 0 <= i < |returned| ==> BigEndian(returned[i]) < BigEndian(value)
  }

  ghost predicate Increasing(returned: seq<Nonce>) {
    forall i, j :: 0 <= i < j < |returned| ==> BigEndian(returned[i]) < BigEndian(returned[j])
  }

  ghost predicate FileAbove(s: System) {
    s.returned != [] ==> exists value: Nonce :: FileHolds(s, value) && AboveReturned(value, s.returned)
  }

  ghost predicate HolderFits(s: System, progress: Progress) {
    match progress
    case Locked => true
    case HasRead(issued) => AboveReturned(issued, s.returned) && Counter(s.file, issued) == Some(issued)
    case Renamed(issued) =>
      AboveReturned(issued, s.returned) && FileHolds(s, Successor(issued))
      && BigEndian(Successor(issued)) == BigEndian(issued) + 1
  }

  ghost predicate Inv(s: System) {
    Increasing(s.returned) && FileAbove(s) && (s.holder.Some? ==> HolderFits(s, s.holder.value.1))
  }

  lemma SuccessorIsNext(value: Nonce)
    requires Successor(value) != Zeros(|value|)
    ensures BigEndian(Successor(value)) == BigEndian(value) + 1
  {
    SuccessorWraps(value);
    SuccessorAddsOne(value);
  }

  lemma CounterOfHeld(s: System, value: Nonce, drawn: Nonce)
    requires FileHolds(s, value)
    ensures Counter(s.file, drawn) == Some(value)
  {
    StoredNonceReadsBack(value);
  }

  lemma {:induction false} ReadKeepsInv(s: System, process: nat, drawn: Nonce)
    requires Inv(s) && s.holder == Some((process, Locked))
    ensures Inv(Step(s, Read(process, drawn)))
  {
    if s.returned != [] {
      var value: Nonce :| FileHolds(s, value) && AboveReturned(value, s.returned);
      CounterOfHeld(s, value, drawn);
    }
  }

  lemma {:induction false} RenameKeepsInv(s: System, process: nat, issued: Nonce)
    requires Inv(s) && s.holder == Some((process, HasRead(issued)))
    ensures Inv(Step(s, Rename(process)))
  {
    if Successor(issued) != Zeros(|issued|) {
      SuccessorStaysAbove(issued, s.returned);
      RenamedInv(s, s.(file := Some(Hex(Successor(issued))), holder := Some((process, Renamed(issued)))), issued);
    }
  }

  lemma RenamedInv(s: System, after: System, issued: Nonce)
    requires Inv(s) && after.returned == s.returned && AboveReturned(issued, s.returned)
    requires FileHolds(after, Successor(issued)) && BigEndian(Successor(issued)) == BigEndian(issued) + 1
    requires AboveReturned(Successor(issued), s.returned)
    requires after.holder.Some? && after.holder.value.1 == Renamed(issued)
    ensures Inv(after)
  {}

  lemma SuccessorStaysAbove(issued: Nonce, returned: seq<Nonce>)
    requires AboveReturned(issued, returned) && Successor(issued) != Zeros(|issued|)
    ensures AboveReturned(Successor(issued), returned) && BigEndian(Successor(issued)) == BigEndian(issued) + 1
  {
    SuccessorIsNext(issued);
  }

  lemma {:induction false} ReturnKeepsInv(s: System, process: nat, issued: Nonce)
    requires Inv(s) && s.holder == Some((process, Renamed(issued)))
    ensures Inv(Step(s, Return(process)))
  {
    var after := Step(s, Return(process));
    assert FileHolds(after, Successor(issued)) && AboveReturned(Successor(issued), after.returned);
  }

  lemma {:induction false} StepKeepsInv(s: System, a: Action)
    requires Inv(s)
    ensures Inv(Step(s, a))
  {
    if s.holder.Some? && a.process == s.holder.value.0 {
      match (a, s.holder.value.1) {
        case (Read(p, drawn), Locked) => ReadKeepsInv(s, p, drawn);
        case (Rename(p), HasRead(value)) => RenameKeepsInv(s, p, value);
        case (Return(p), Renamed(value)) => ReturnKeepsInv(s, p, value);
        case _ =>
      }
    }
  }

  lemma Reachable(file: Option<string>, actions: seq<Action>, n: nat)
    requires n <= |actions|
    ensures Inv(StateAt(file, actions, n))
  {
    forall s: System, i | 0 <= i < n && Inv(s) ensures Inv(Step(s, actions[i])) {
      StepKeepsInv(s, actions[i]);
    }
    Runs.KeptBetween(Step, System(file, None, []), actions, 0, n, (s: System) => Inv(s));
  }

  /**
   * However any number of processes interleave and wherever they crash, the nonces handed out are
   * strictly increasing 192-bit numbers, hence all different, and the file stays above all of them.
   */
  lemma NoncesNeverRepeat(file: Option<string>, actions: seq<Action>, n: nat)
    requires n <= |actions|
    ensures var s := StateAt(file, actions, n);
      && (forall i, j :: 0 <= i < j < |s.returned| ==>
            BigEndian(s.returned[i]) < BigEndian(s.returned[j]) && s.returned[i] != s.returned[j])
      && (s.returned != [] ==> exists value: Nonce :: s.file == Some(Hex(value)) && AboveReturned(value, s.returned))
  {
    Reachable(file, actions, n);
    var s := StateAt(file, actions, n);
    if s.returned != [] {
      var value: Nonce :| FileHolds(s, value) && AboveReturned(value, s.returned);
      assert s.file == Some(Hex(value));
    }
  }

  // ----- where the nonces come from -----

  /** What this read finds: the file's counter, or the drawn value when there is no file. */
  predicate Finds(s: System, a: Action, value: Nonce) {
    && a.Read? && s.holder == Some((a.process, Locked))
    && match s.file
       case Some(text) => DecodeNonce(Trim(text)) == Some(value)
       case None => value == a.drawn
  }

  ghost predicate WasFound(file: Option<string>, actions: seq<Action>, n: nat, value: Nonce)
    requires n <= |actions|
  {
    exists k :: 0 <= k < n && Finds(StateAt(file, actions, k), actions[k], value)
  }

  /** Every nonce in use or returned was found. */
  ghost predicate AllFound(s: System, found: Nonce -> bool) {
    && (forall i :: 0 <= i < |s.returned| ==> found(s.returned[i]))
    && forall process, value :: HoldsValue(s, process, value) ==> found(value)
  }

  predicate HoldsValue(s: System, process: nat, value: Nonce) {
    s.holder == Some((process, HasRead(value))) || s.holder == Some((process, Renamed(value)))
  }

  lemma {:induction false} StepKeepsFound(s: System, a: Action, after: System, found: Nonce -> bool,
                                          later: Nonce -> bool)
    requires AllFound(s, found) && after == Step(s, a)
    requires forall value :: found(value) || Finds(s, a, value) ==> later(value)
    ensures AllFound(after, later)
  {
    forall process, value | HoldsValue(after, process, value) ensures later(value) {
      HeldBefore(s, a, process, value);
      assert HoldsValue(s, process, value) ==> found(value);
    }
    forall i | 0 <= i < |after.returned| ensures later(after.returned[i]) {
      if i == |s.returned| {
        assert HoldsValue(s, a.process, after.returned[i]);
      }
    }
  }

  lemma {:induction false} HeldBefore(s: System, a: Action, process: nat, value: Nonce)
    requires HoldsValue(Step(s, a), process, value)
    ensures HoldsValue(s, process, value) || (Finds(s, a, value) && a.process == process)
    ensures Step(s, a).returned == s.returned && !CutsShort(s, a)
  {}

  ghost function FoundBy(file: Option<string>, actions: seq<Action>, n: nat): Nonce -> bool
    requires n <= |actions|
  {
    (value: Nonce) => WasFound(file, actions, n, value)
  }

  ghost predicate AllFoundAt(file: Option<string>, actions: seq<Action>, n: nat)
    requires n <= |actions|
  {
    AllFound(StateAt(file, actions, n), FoundBy(file, actions, n))
  }

  lemma {:induction false} AllFoundNext(file: Option<string>, actions: seq<Action>, n: nat)
    requires n < |actions| && AllFoundAt(file, actions, n)
    ensures AllFoundAt(file, actions, n + 1)
  {
    var s, after := StateAt(file, actions, n), StateAt(file, actions, n + 1);
    var found, later := FoundBy(file, actions, n), FoundBy(file, actions, n + 1);
    NextState(file, actions, n);
    assert forall value :: found(value) || Finds(s, actions[n], value) ==> later(value);
    StepKeepsFound(s, actions[n], after, found, later);
  }

  lemma {:induction false} NothingFoundYet(file: Option<string>, actions: seq<Action>)
    ensures AllFoundAt(file, actions, 0)
  {
    assert StateAt(file, actions, 0) == System(file, None, []);
  }

  lemma {:induction false} AllFoundThroughout(file: Option<string>, actions: seq<Action>, n: nat)
    requires n <= |actions|
    ensures AllFoundAt(file, actions, n)
  {
    if n == 0 {
      NothingFoundYet(file, actions);
    } else {
      AllFoundThroughout(file, actions, n - 1);
      AllFoundNext(file, actions, n - 1);
    }
  }

  /**
   * Whatever any call returns is what a read of that run found: the file's counter, or without a file the
   * value drawn.
   */
  lemma {:induction false} ReturnedWasFound(file: Option<string>, actions: seq<Action>, n: nat)
    requires n <= |actions|
    ensures var returned := StateAt(file, actions, n).returned;
      forall i :: 0 <= i < |returned| ==> WasFound(file, actions, n, returned[i])
  {
    AllFoundThroughout(file, actions, n);
    var returned, found := StateAt(file, actions, n).returned, FoundBy(file, actions, n);
    forall i | 0 <= i < |returned| ensures WasFound(file, actions, n, returned[i]) {
      assert found(returned[i]);
    }
  }

  /** This action ends a call between its rename and its return. */
  predicate CutsShort(s: System, a: Action) {
    a.Abort? && s.holder.Some? && s.holder.value.0 == a.process && s.holder.value.1.Renamed?
  }

  ghost predicate CutShort(actions: seq<Action>, n: nat)
    requires n <= |actions|
  {
    exists k :: 0 <= k < n && CutsShort(StateAt(None, actions, k), actions[k])
  }

  lemma {:induction false} CutShortNext(actions: seq<Action>, n: nat)
    requires n < |actions|
    ensures CutShort(actions, n + 1) <==> CutShort(actions, n) || CutsShort(StateAt(None, actions, n), actions[n])
  {}

  /** Before any nonce was returned there is a file only if a call is about to return or was cut short. */
  predicate FileFits(s: System, cutShort: bool) {
    s.returned == [] ==> (s.file == None <==> !cutShort && !(s.holder.Some? && s.holder.value.1.Renamed?))
  }

  lemma {:induction false} StepKeepsFileFits(s: System, a: Action, after: System, before: bool, cutShort: bool)
    requires FileFits(s, before) && after == Step(s, a) && (cutShort <==> before || CutsShort(s, a))
    ensures FileFits(after, cutShort)
  {}

  ghost predicate FileFitsAt(actions: seq<Action>, n: nat)
    requires n <= |actions|
  {
    FileFits(StateAt(None, actions, n), CutShort(actions, n))
  }

  lemma {:induction false} FileFitsNext(actions: seq<Action>, n: nat)
    requires n < |actions| && FileFitsAt(actions, n)
    ensures FileFitsAt(actions, n + 1)
  {
    var s, after := StateAt(None, actions, n), StateAt(None, actions, n + 1);
    var before, cutShort := CutShort(actions, n), CutShort(actions, n + 1);
    NextState(None, actions, n);
    CutShortNext(actions, n);
    StepKeepsFileFits(s, actions[n], after, before, cutShort);
  }

  lemma {:induction false} NoFileAtFirst(actions: seq<Action>)
    ensures FileFitsAt(actions, 0)
  {
    assert StateAt(None, actions, 0) == System(None, None, []);
  }

  lemma {:induction false} FileFitsThroughout(actions: seq<Action>, n: nat)
    requires n <= |actions|
    ensures FileFitsAt(actions, n)
  {
    if n == 0 {
      NoFileAtFirst(actions);
    } else {
      FileFitsThroughout(actions, n - 1);
      FileFitsNext(actions, n - 1);
    }
  }

  /** A call of this process read this value at `k`, and nothing was returned or cut short from then to `n`. */
  ghost predicate ReadAt(actions: seq<Action>, k: nat, n: nat, process: nat, value: Nonce)
    requires k < n <= |actions|
  {
    && Finds(StateAt(None, actions, k), actions[k], value) && actions[k].process == process
    && StateAt(None, actions, k).returned == StateAt(None, actions, n).returned
    && (CutShort(actions, k) <==> CutShort(actions, n))
  }

  ghost function ReadBy(actions: seq<Action>, n: nat): (nat, Nonce) -> bool
    requires n <= |actions|
  {
    (process: nat, value: Nonce) => exists k: nat :: k < n && ReadAt(actions, k, n, process, value)
  }

  ghost predicate HeldFits(s: System, read: (nat, Nonce) -> bool) {
    forall process, value :: HoldsValue(s, process, value) ==> read(process, value)
  }

  lemma {:induction false} StepKeepsHeldFits(s: System, a: Action, after: System, read: (nat, Nonce) -> bool,
                                             later: (nat, Nonce) -> bool)
    requires HeldFits(s, read) && after == Step(s, a)
    requires after.returned == s.returned && !CutsShort(s, a) ==> forall process, value ::
      read(process, value) || (Finds(s, a, value) && a.process == process) ==> later(process, value)
    ensures HeldFits(after, later)
  {
    forall process, value | HoldsValue(after, process, value) ensures later(process, value) {
      HeldBefore(s, a, process, value);
      assert HoldsValue(s, process, value) ==> read(process, value);
    }
  }

  ghost predicate HeldFitsAt(actions: seq<Action>, n: nat)
    requires n <= |actions|
  {
    HeldFits(StateAt(None, actions, n), ReadBy(actions, n))
  }

  lemma {:induction false} ReadStays(actions: seq<Action>, n: nat, process: nat, value: Nonce)
    requires n < |actions| && StateAt(None, actions, n).returned == StateAt(None, actions, n + 1).returned
    requires CutShort(actions, n) <==> CutShort(actions, n + 1)
    requires ReadBy(actions, n)(process, value)
      || (Finds(StateAt(None, actions, n), actions[n], value) && actions[n].process == process)
    ensures ReadBy(actions, n + 1)(process, value)
  {
    if ReadBy(actions, n)(process, value) {
      var k: nat :| k < n && ReadAt(actions, k, n, process, value);
      assert ReadAt(actions, k, n + 1, process, value);
    } else {
      assert ReadAt(actions, n, n + 1, process, value);
    }
  }

  lemma {:induction false} HeldFitsNext(actions: seq<Action>, n: nat)
    requires n < |actions| && HeldFitsAt(actions, n)
    ensures HeldFitsAt(actions, n + 1)
  {
    var s, after := StateAt(None, actions, n), StateAt(None, actions, n + 1);
    var read, later := ReadBy(actions, n), ReadBy(actions, n + 1);
    NextState(None, actions, n);
    CutShortNext(actions, n);
    forall process, value | after.returned == s.returned && !CutsShort(s, actions[n])
        && (read(process, value) || (Finds(s, actions[n], value) && actions[n].process == process))
      ensures later(process, value)
    {
      ReadStays(actions, n, process, value);
    }
    StepKeepsHeldFits(s, actions[n], after, read, later);
  }

  lemma {:induction false} NothingHeldAtFirst(actions: seq<Action>)
    ensures HeldFitsAt(actions, 0)
  {
    assert StateAt(None, actions, 0) == System(None, None, []);
  }

  lemma {:induction false} HeldFitsThroughout(actions: seq<Action>, n: nat)
    requires n <= |actions|
    ensures HeldFitsAt(actions, n)
  {
    if n == 0 {
      NothingHeldAtFirst(actions);
    } else {
      HeldFitsThroughout(actions, n - 1);
      HeldFitsNext(actions, n - 1);
    }
  }

  /** What a call holds it has read itself, with nothing returned or cut short since. */
  lemma {:induction false} HeldWasRead(actions: seq<Action>, n: nat, process: nat, value: Nonce) returns (k: nat)
    requires n <= |actions| && HoldsValue(StateAt(None, actions, n), process, value)
    ensures k < n && ReadAt(actions, k, n, process, value)
  {
    HeldFitsThroughout(actions, n);
    assert ReadBy(actions, n)(process, value);
    k :| k < n && ReadAt(actions, k, n, process, value);
  }

  /**
   * Starting without a file, the first nonce ever returned was found by a read of the very call that returns
   * it. That read found no file, so the nonce is the one it drew, exactly when no call before was cut short
   * between its rename and its return; otherwise it is the file's counter.
   */
  lemma {:induction false} FirstNonceIsDrawnIff(actions: seq<Action>, n: nat) returns (k: nat)
    requires n < |actions| && StateAt(None, actions, n).returned == [] && StateAt(None, actions, n + 1).returned != []
    ensures k < n && actions[k].Read? && actions[k].process == actions[n].process
    ensures StateAt(None, actions, k).file == None <==> !CutShort(actions, n)
    ensures !CutShort(actions, n) ==> StateAt(None, actions, n + 1).returned == [actions[k].drawn]
    ensures CutShort(actions, n) ==>
      exists value :: Finds(StateAt(None, actions, k), actions[k], value)
        && StateAt(None, actions, n + 1).returned == [value]
  {
    NextState(None, actions, n);
    var value := StateAt(None, actions, n).holder.value.1.issued;
    k := HeldWasRead(actions, n, actions[n].process, value);
    FileFitsThroughout(actions, k);
  }

  /** A call cut short after it stored the file takes its drawn nonce with it: the next call returns the one after. */
  lemma {:induction false} CutShortCallLosesDrawn(drawn: Nonce, other: Nonce)
    requires Successor(drawn) != Zeros(|drawn|) && Successor(Successor(drawn)) != Zeros(|drawn|)
    ensures var actions := [Lock(0), Read(0, drawn), Rename(0), Abort(0), Lock(1), Read(1, other), Rename(1),
      Return(1)];
      StateAt(None, actions, 8).returned == [Successor(drawn)]
  {
    var actions := [Lock(0), Read(0, drawn), Rename(0), Abort(0), Lock(1), Read(1, other), Rename(1), Return(1)];
    CutShortCallStores(actions, drawn);
    CallReturnsFile(actions, other, Successor(drawn));
  }

  lemma {:induction false} CutShortCallStores(actions: seq<Action>, drawn: Nonce)
    requires |actions| >= 4 && actions[0..0 + 3] == [Lock(0), Read(0, drawn), Rename(0)] && actions[3] == Abort(0)
    requires Successor(drawn) != Zeros(|drawn|)
    ensures StateAt(None, actions, 4) == System(Some(Hex(Successor(drawn))), None, [])
  {
    CallStores(None, actions, 0, 0, drawn, drawn);
    NextState(None, actions, 3);
  }

  lemma {:induction false} CallReturnsFile(actions: seq<Action>, other: Nonce, value: Nonce)
    requires |actions| == 8 && actions[4..4 + 3] == [Lock(1), Read(1, other), Rename(1)] && actions[7] == Return(1)
    requires StateAt(None, actions, 4) == System(Some(Hex(value)), None, []) && Successor(value) != Zeros(|value|)
    ensures StateAt(None, actions, 8).returned == [value]
  {
    CounterOfHeld(StateAt(None, actions, 4), value, other);
    CallStores(None, actions, 4, 1, other, value);
    NextState(None, actions, 7);
  }

  /** Three undisturbed steps of a call: it holds what it found, and the file the number after it. */
  lemma {:induction false} CallStores(file: Option<string>, actions: seq<Action>, n: nat, process: nat, drawn: Nonce,
                                      value: Nonce)
    requires n + 3 <= |actions| && actions[n..n + 3] == [Lock(process), Read(process, drawn), Rename(process)]
    requires StateAt(file, actions, n).holder == None && Counter(StateAt(file, actions, n).file, drawn) == Some(value)
    requires Successor(value) != Zeros(|value|)
    ensures StateAt(file, actions, n + 3) ==
      System(Some(Hex(Successor(value))), Some((process, Renamed(value))), StateAt(file, actions, n).returned)
  {
    NextState(file, actions, n);
    NextState(file, actions, n + 1);
    NextState(file, actions, n + 2);
    assert actions[n] == actions[n..n + 3][0];
    assert actions[n + 1] == actions[n..n + 3][1];
    assert actions[n + 2] == actions[n..n + 3][2];
  }

  /** The calls that can still return once the counter has reached `top`: one that had already stored it. */
  predicate Finishing(holder: Option<(nat, Progress)>, top: Nonce) {
    holder.Some? && holder.value.1.Renamed? && Successor(holder.value.1.issued) == top
  }

  /** The counter stands at `top`, nothing was returned since `returned` except by a call that was finishing. */
  ghost predicate Spent(s: System, top: Nonce, holder: Option<(nat, Progress)>, returned: seq<Nonce>) {
    && FileHolds(s, top)
    && (s.returned == returned || (Finishing(holder, top) && s.returned == returned + [holder.value.1.issued]))
    && (s.holder.Some? ==>
      match s.holder.value.1
      case Locked => true
      case HasRead(issued) => issued == top
      case Renamed(issued) => s.holder == holder && Finishing(holder, top) && s.returned == returned)
  }

  lemma ExhaustedHasNoSuccessor(top: Nonce)
    requires Exhausted(top)
    ensures Successor(top) == Zeros(|top|)
  {
    SuccessorWraps(top);
  }

  lemma SpentStaysSpent(s: System, a: Action, top: Nonce, holder: Option<(nat, Progress)>, returned: seq<Nonce>)
    requires Exhausted(top) && Spent(s, top, holder, returned)
    ensures Spent(Step(s, a), top, holder, returned)
  {
    match a {
      case Read(_, drawn) => CounterOfHeld(s, top, drawn);
      case Rename(_) => ExhaustedHasNoSuccessor(top);
      case _ =>
    }
  }

  lemma SpentAtFirst(s: System, top: Nonce)
    requires Inv(s) && FileHolds(s, top)
    ensures Spent(s, top, s.holder, s.returned)
  {
    if s.holder.Some? {
      match s.holder.value.1 {
        case HasRead(issued) => CounterOfHeld(s, top, issued);
        case Renamed(issued) => HexInjective(Successor(issued), top);
        case Locked =>
      }
    }
  }

  lemma SpentFromThenOn(file: Option<string>, actions: seq<Action>, n: nat, m: nat, top: Nonce)
    requires n <= m <= |actions| && Exhausted(top) && FileHolds(StateAt(file, actions, n), top)
    ensures Spent(StateAt(file, actions, m), top, StateAt(file, actions, n).holder, StateAt(file, actions, n).returned)
  {
    var holder, returned := StateAt(file, actions, n).holder, StateAt(file, actions, n).returned;
    Reachable(file, actions, n);
    SpentAtFirst(StateAt(file, actions, n), top);
    forall s: System, i | n <= i < m && Spent(s, top, holder, returned)
      ensures Spent(Step(s, actions[i]), top, holder, returned)
    {
      SpentStaysSpent(s, actions[i], top, holder, returned);
    }
    Runs.KeptBetween(Step, System(file, None, []), actions, n, m, (s: System) => Spent(s, top, holder, returned));
  }

  /**
   * Once the counter stands at its maximum, no nonce is ever handed out again, but for the last one
   * below the maximum if the call that stored the maximum has still to return.
   */
  lemma ExhaustedForever(file: Option<string>, actions: seq<Action>, n: nat, m: nat, top: Nonce)
    requires n <= m <= |actions| && Exhausted(top) && FileHolds(StateAt(file, actions, n), top)
    ensures var s := StateAt(file, actions, n); var after := StateAt(file, actions, m);
      && FileHolds(after, top)
      && (after.returned == s.returned
          || (Finishing(s.holder, top) && after.returned == s.returned + [s.holder.value.1.issued]))
  {
    SpentFromThenOn(file, actions, n, m, top);
  }
}
