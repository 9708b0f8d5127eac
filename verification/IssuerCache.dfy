/** The process-wide cache of recovered issuer certificates: text that only grows
    between resets, and a 32-bit generation that tells readers when it changed. */
module IssuerCache {
  import opened Frames

  const PEM_BEGIN: string := "-----BEGIN CERTIFICATE-----"
  const GENERATIONS: nat := 0x1_0000_0000
  const SIZE_MAX: nat := 0xFFFF_FFFF_FFFF_FFFF
  const CHUNK: nat := 4096

  // ----- specification -----

  /** What the cache holds and the generation it is at. */
  datatype Book = Book(content: string, generation: nat)

  datatype Call = Add(pem: Option<string>, granted: bool) | Take | Reset

  predicate Accepted(c: Call) {
    c.Add? && c.pem.Some? && PEM_BEGIN <= c.pem.value && c.granted
  }

  function Terminated(pem: string): string
    requires pem != ""
  {
    if pem[|pem| - 1] == '\n' then pem else pem + "\n"
  }

  /** A text that ends in a newline is taken as it is, any other gets one more. */
  lemma TerminatedIs(pem: string)
    requires pem != ""
    ensures var r := Terminated(pem);
            && r[|r| - 1] == '\n' && pem <= r && |r| <= |pem| + 1
            && (r == pem <==> pem[|pem| - 1] == '\n')
  {
  }

  lemma AcceptedNotEmpty(c: Call)
    requires Accepted(c)
    ensures c.pem.value != ""
  {
    assert |PEM_BEGIN| > 0;
  }

  function Step(b: Book, c: Call): Book {
    match c
    case Add(_, _) =>
      if Accepted(c) then
        AcceptedNotEmpty(c);
        Book(b.content + Terminated(c.pem.value), (b.generation + 1) % GENERATIONS)
      else b
    case Take => b
    case Reset => Book("", (b.generation + 1) % GENERATIONS)
  }

  function Run(calls: seq<Call>): Book {
    if calls == [] then Book("", 0) else Step(Run(calls[..|calls| - 1]), calls[|calls| - 1])
  }

  lemma RunAppend(calls: seq<Call>, c: Call)
    ensures Run(calls + [c]) == Step(Run(calls), c)
  {
    assert (calls + [c])[..|calls|] == calls;
  }

  predicate Changes(c: Call) {
    Accepted(c) || c.Reset?
  }

  function ChangeCount(calls: seq<Call>): nat {
    if calls == [] then 0
    else ChangeCount(calls[..|calls| - 1]) + if Changes(calls[|calls| - 1]) then 1 else 0
  }

  /** The calls after the last reset. */
  function SinceReset(calls: seq<Call>): seq<Call> {
    if calls == [] then []
    else if calls[|calls| - 1].Reset? then []
    else SinceReset(calls[..|calls| - 1]) + [calls[|calls| - 1]]
  }

  /** The accepted texts in order, each ended by a newline. */
  function Texts(calls: seq<Call>): seq<string> {
    if calls == [] then []
    else if Accepted(calls[0]) then
      AcceptedNotEmpty(calls[0]);
      [Terminated(calls[0].pem.value)] + Texts(calls[1..])
    else Texts(calls[1..])
  }

  function Concat(texts: seq<string>): string {
    if texts == [] then "" else texts[0] + Concat(texts[1..])
  }

  lemma {:induction false} TextsAppend(calls: seq<Call>, c: Call)
    ensures Texts(calls + [c]) == Texts(calls) + Texts([c])
  {
    if calls == [] {
      assert calls + [c] == [c];
    } else {
      TextsAppend(calls[1..], c);
      assert (calls + [c])[1..] == calls[1..] + [c];
    }
  }

  lemma {:induction false} ConcatAppend(a: seq<string>, b: seq<string>)
    ensures Concat(a + b) == Concat(a) + Concat(b)
  {
    if a == [] {
      assert a + b == b;
    } else {
      ConcatAppend(a[1..], b);
      assert (a + b)[1..] == a[1..] + b;
    }
  }

  /** After any run the cache is the accepted texts since the last reset, in order. */
  lemma {:induction false} ContentIsLog(calls: seq<Call>)
    ensures Run(calls).content == Concat(Texts(SinceReset(calls)))
  {
    if calls == [] {
    } else {
      var n := |calls| - 1;
      var c, kept := calls[n], SinceReset(calls[..n]);
      ContentIsLog(calls[..n]);
      if !c.Reset? {
        TextsAppend(kept, c);
        ConcatAppend(Texts(kept), Texts([c]));
        if Accepted(c) {
          assert Texts([c]) == [Terminated(c.pem.value)];
          assert Concat(Texts([c])) == Terminated(c.pem.value);
        } else {
          assert Texts([c]) == [];
        }
      }
    }
  }

  /** The cache is empty exactly when nothing was accepted since the last reset. */
  lemma EmptyIff(calls: seq<Call>)
    ensures Run(calls).content == "" <==> forall i :: 0 <= i < |SinceReset(calls)| ==> !Accepted(SinceReset(calls)[i])
  {
    ContentIsLog(calls);
    TextsEmptyIff(SinceReset(calls));
  }

  lemma {:induction false} TextsEmptyIff(calls: seq<Call>)
    ensures Concat(Texts(calls)) == "" <==> forall i :: 0 <= i < |calls| ==> !Accepted(calls[i])
  {
    if calls == [] {
    } else {
      TextsEmptyIff(calls[1..]);
      if Accepted(calls[0]) {
        AcceptedNotEmpty(calls[0]);
        assert Concat(Texts(calls)) == Terminated(calls[0].pem.value) + Concat(Texts(calls)[1..]);
      } else {
        assert forall i :: 1 <= i < |calls| ==> calls[i] == calls[1..][i - 1];
      }
    }
  }

  lemma {:induction false} GenerationCounts(calls: seq<Call>)
    ensures Run(calls).generation == ChangeCount(calls) % GENERATIONS
  {
    if calls == [] {
    } else {
      var before := calls[..|calls| - 1];
      GenerationCounts(before);
      NextModulo(ChangeCount(before));
    }
  }

  lemma NextModulo(n: nat)
    ensures (n % GENERATIONS + 1) % GENERATIONS == (n + 1) % GENERATIONS
  {
  }

  /** Between two moments of a run. */
  lemma {:induction false} CountBetween(calls: seq<Call>, more: seq<Call>)
    ensures ChangeCount(calls + more) == ChangeCount(calls) + ChangeCount(more)
  {
    if more == [] {
      assert calls + more == calls;
    } else {
      var n := |more| - 1;
      CountBetween(calls, more[..n]);
      assert (calls + more)[..|calls + more| - 1] == calls + more[..n];
    }
  }

  lemma {:induction false} UnchangedRun(calls: seq<Call>, more: seq<Call>)
    requires ChangeCount(more) == 0
    ensures Run(calls + more) == Run(calls)
  {
    if more == [] {
      assert calls + more == calls;
    } else {
      var n := |more| - 1;
      UnchangedRun(calls, more[..n]);
      assert (calls + more)[..|calls + more| - 1] == calls + more[..n];
    }
  }

  /** Two readings of the generation agree exactly when the changes between them are
      a multiple of 2^32. */
  lemma ReadingsAgreeIff(calls: seq<Call>, more: seq<Call>)
    ensures Run(calls).generation == Run(calls + more).generation <==> ChangeCount(more) % GENERATIONS == 0
  {
    GenerationCounts(calls);
    GenerationCounts(calls + more);
    CountBetween(calls, more);
    ModSum(ChangeCount(calls), ChangeCount(more));
  }

  lemma ModSum(a: nat, b: nat)
    ensures (a + b) % GENERATIONS == a % GENERATIONS <==> b % GENERATIONS == 0
  {
    var q, r := a / GENERATIONS, a % GENERATIONS;
    var s, t := b / GENERATIONS, b % GENERATIONS;
    var u, v := (a + b) / GENERATIONS, (a + b) % GENERATIONS;
    assert v - r - t == GENERATIONS * (q + s - u);
  }

  /** Coherence: with fewer than 2^32 changes in between, equal readings mean nothing
      changed, byte for byte. */
  lemma EqualReadingsEqualContent(calls: seq<Call>, more: seq<Call>)
    requires ChangeCount(more) < GENERATIONS
    requires Run(calls).generation == Run(calls + more).generation
    ensures Run(calls).content == Run(calls + more).content && ChangeCount(more) == 0
  {
    ReadingsAgreeIff(calls, more);
    UnchangedRun(calls, more);
  }

  // ----- the cache itself -----

  /** A file to be read: its bytes from the current position up to where reading
      ends, and whether it ends there with an error. */
  class File {
    const bytes: string
    const failed: bool
    var pos: nat

    constructor (bytes: string, failed: bool)
      ensures this.bytes == bytes && this.failed == failed && pos == 0
    {
      this.bytes, this.failed, pos := bytes, failed, 0;
    }

    method Read(chunk: array<char>) returns (n: nat)
      requires pos <= |bytes|
      modifies this, chunk
      ensures old(pos) <= pos <= |bytes| && n == pos - old(pos)
      ensures n == if |bytes| - old(pos) < chunk.Length then |bytes| - old(pos) else chunk.Length
      ensures chunk[..n] == bytes[old(pos)..pos]
    {
      n := if |bytes| - pos < chunk.Length then |bytes| - pos else chunk.Length;
      forall i | 0 <= i < n {
        chunk[i] := bytes[pos + i];
      }
      pos := pos + n;
    }
  }

  /** `realloc` by n bytes, and `memcpy` of a chunk to the end. */
  method Append(buffer: array?<char>, size: nat, chunk: array<char>, n: nat) returns (grown: array<char>)
    requires (buffer == null ==> size == 0) && (buffer != null ==> size <= buffer.Length) && n <= chunk.Length
    ensures fresh(grown) && grown.Length == size + n && Prefix(grown, size + n) == Prefix(buffer, size) + chunk[..n]
  {
    grown := Grown(buffer, size, size + n);
    Place(grown, size, chunk[..n]);
  }

  /** `realloc` to a longer buffer, of which the first `size` bytes are kept. */
  method Grown(buffer: array?<char>, size: nat, capacity: nat) returns (grown: array<char>)
    requires (buffer == null ==> size == 0) && (buffer != null ==> size <= buffer.Length) && size <= capacity
    ensures fresh(grown) && grown.Length == capacity && grown[..size] == Prefix(buffer, size)
  {
    grown := new char[capacity];
    if buffer != null {
      forall i | 0 <= i < size {
        grown[i] := buffer[i];
      }
    }
  }

  ghost function Prefix(buffer: array?<char>, size: nat): string
    requires buffer != null ==> size <= buffer.Length
    reads buffer
  {
    if buffer == null then "" else buffer[..size]
  }

  /** `memcpy` of a text to position `at`. */
  method Place(buffer: array<char>, at: nat, text: string)
    requires at + |text| <= buffer.Length
    modifies buffer
    ensures buffer[..at + |text|] == old(buffer[..at]) + text
    ensures forall i :: at + |text| <= i < buffer.Length ==> buffer[i] == old(buffer[i])
  {
    forall i | 0 <= i < |text| {
      buffer[at + i] := text[i];
    }
  }

  /** The buffer grown by a text, a newline unless it ends in one, and the closing zero. */
  method Extended(buffer: array?<char>, size: nat, text: string) returns (grown: array<char>, end: nat)
    requires (buffer == null ==> size == 0) && (buffer != null ==> size <= buffer.Length) && text != ""
    ensures fresh(grown) && end < grown.Length && grown[end] == '\0'
    ensures Prefix(grown, end) == Prefix(buffer, size) + Terminated(text)
  {
    grown := Grown(buffer, size, size + |text| + 2);
    Place(grown, size, text);
    end := size + |text|;
    if text[|text| - 1] != '\n' {
      grown[end] := '\n';
      end := end + 1;
    }
    grown[end] := '\0';
    assert grown[..end] == Prefix(buffer, size) + Terminated(text);
  }

  class Cache {
    var blob: array?<char>
    var size: nat
    var generation: nat

    /** The calls so far. */
    ghost var calls: seq<Call>

    ghost predicate Shaped()
      reads this, blob
    {
      && generation < GENERATIONS
      && (blob == null ==> size == 0)
      && (blob != null ==> size < blob.Length && blob[size] == '\0')
    }

    ghost function View(): Book
      reads this, blob
      requires Shaped()
    {
      Book(Prefix(blob, size), generation)
    }

    ghost predicate Valid()
      reads this, blob
    {
      Shaped() && View() == Run(calls)
    }

    constructor ()
      ensures Valid() && calls == []
    {
      blob, size, generation := null, 0, 0;
      calls := [];
    }

    method AddPem(pem: Option<string>, granted: bool) returns (added: bool)
      requires Valid()
      modifies this
      ensures Valid() && calls == old(calls) + [Add(pem, granted)]
      ensures View() == Step(old(View()), Add(pem, granted)) && added == Accepted(Add(pem, granted))
    {
      RunAppend(calls, Add(pem, granted));
      calls := calls + [Add(pem, granted)];
      if pem.None? || |pem.value| < |PEM_BEGIN| {
        return false;
      }
      if pem.value[..|PEM_BEGIN|] != PEM_BEGIN {
        return false;
      }
      if !granted {
        return false;
      }
      blob, size := Extended(blob, size, pem.value);
      generation := (generation + 1) % GENERATIONS;
      return true;
    }

    /** A copy of the content, or null when it is empty or no memory is left. */
    method Copy(granted: bool) returns (copy: array?<char>, length: nat)
      requires Shaped()
      ensures copy == null <==> View().content == "" || !granted
      ensures copy == null ==> length == 0
      ensures copy != null ==> fresh(copy) && length == |View().content| && copy.Length == length + 1 &&
                               copy[..length] == View().content && copy[length] == '\0'
    {
      copy, length := null, 0;
      if blob != null && size != 0 && granted {
        copy := Grown(blob, size, size + 1);
        copy[size] := '\0';
        length := size;
      }
    }

    method Clear()
      requires Valid()
      modifies this
      ensures Valid() && calls == old(calls) + [Reset] && View() == Step(old(View()), Reset)
    {
      RunAppend(calls, Reset);
      calls := calls + [Reset];
      blob, size := null, 0;
      generation := (generation + 1) % GENERATIONS;
    }

    /** A reading counts the changes so far, modulo 2^32. */
    method Generation() returns (reading: nat)
      requires Valid()
      ensures reading == ChangeCount(calls) % GENERATIONS
    {
      GenerationCounts(calls);
      reading := generation;
    }

    /** The CA file, a newline and the content, or the content alone without a file.
        `granted(i)` says whether the call's i-th allocation succeeds. */
    method WithCa(ca: File?, granted: nat -> bool) returns (bundle: array?<char>, length: nat)
      requires Valid() && (ca != null ==> ca.pos == 0)
      modifies ca
      ensures Valid() && View() == old(View())
      ensures bundle == null ==> length == 0
      ensures bundle != null ==> fresh(bundle) && length < bundle.Length && bundle[length] == '\0'
      ensures bundle != null ==>
                bundle[..length] == if ca == null then View().content else ca.bytes + "\n" + View().content
      ensures bundle != null <==>
                && View().content != "" && granted(0)
                && (ca == null ||
                    (&& !ca.failed && |ca.bytes| + |View().content| + 2 <= SIZE_MAX
                     && forall i :: 1 <= i <= Chunks(|ca.bytes|) + 1 ==> granted(i)))
    {
      var issuers, issuersLength := Copy(granted(0));
      if issuers == null {
        return null, 0;
      }
      if ca == null {
        return issuers, issuersLength;
      }
      var ok, file, size, used := ReadAll(ca, granted);
      if !ok || ca.failed || issuersLength > SIZE_MAX - 2 || size > SIZE_MAX - issuersLength - 2 || !granted(used) {
        return null, 0;
      }
      bundle := Bundle(file, size, issuers, issuersLength);
      length := size + 1 + issuersLength;
    }
  }

  /** File, newline, issuers, and the closing zero. */
  method Bundle(file: array?<char>, size: nat, issuers: array<char>, issuersLength: nat) returns (bundle: array<char>)
    requires (file == null ==> size == 0) && (file != null ==> size <= file.Length) && issuersLength <= issuers.Length
    ensures fresh(bundle) && bundle.Length == size + issuersLength + 2 && bundle[size + 1 + issuersLength] == '\0'
    ensures bundle[..size + 1 + issuersLength] == Prefix(file, size) + "\n" + issuers[..issuersLength]
  {
    bundle := Grown(file, size, size + issuersLength + 2);
    bundle[size] := '\n';
    assert bundle[..size + 1] == Prefix(file, size) + "\n";
    Place(bundle, size + 1, issuers[..issuersLength]);
    bundle[size + 1 + issuersLength] := '\0';
  }

  /** The number of non-empty chunks a length is read in. */
  function Chunks(length: nat): nat {
    if length == 0 then 0 else 1 + Chunks(if length < CHUNK then 0 else length - CHUNK)
  }

  lemma ChunkTaken(length: nat, n: nat)
    requires 0 < n <= CHUNK && n <= length && (n < CHUNK ==> n == length)
    ensures Chunks(length) == 1 + Chunks(length - n)
  {
  }

  /** The first `size` bytes of the file are in the buffer, the next n in the chunk. */
  ghost predicate Reading(ca: File, chunk: array<char>, n: nat, buffer: array?<char>, size: nat)
    reads ca, chunk, buffer
  {
    && n <= chunk.Length == CHUNK && size <= ca.pos == size + n <= |ca.bytes|
    && (n < CHUNK ==> ca.pos == |ca.bytes|) && chunk[..n] == ca.bytes[size..ca.pos]
    && (buffer == null ==> size == 0) && (buffer != null ==> size <= buffer.Length)
    && Prefix(buffer, size) == ca.bytes[..size]
  }

  /** The buffer takes the chunk, and the next chunk is read. */
  method TakeChunk(ca: File, chunk: array<char>, n: nat, buffer: array?<char>, size: nat)
    returns (grown: array<char>, m: nat)
    requires Reading(ca, chunk, n, buffer, size) && (buffer == null || buffer != chunk)
    modifies ca, chunk
    ensures fresh(grown) && Reading(ca, chunk, m, grown, size + n)
  {
    grown := Append(buffer, size, chunk, n);
    assert grown[..size + n] == ca.bytes[..size + n];
    m := ca.Read(chunk);
  }

  /** The chunked read loop: the buffer grows by each chunk that was read. */
  method ReadAll(ca: File, granted: nat -> bool) returns (ok: bool, buffer: array?<char>, size: nat, used: nat)
    requires ca.pos == 0
    modifies ca
    ensures ok ==> used == Chunks(|ca.bytes|) + 1 && (forall i :: 1 <= i < used ==> granted(i))
    ensures ok ==> size == |ca.bytes| && (buffer == null ==> size == 0)
    ensures ok && buffer != null ==> fresh(buffer) && size <= buffer.Length
    ensures ok ==> Prefix(buffer, size) == ca.bytes
    ensures !ok ==> |ca.bytes| > SIZE_MAX || exists i :: 1 <= i <= Chunks(|ca.bytes|) && !granted(i)
  {
    buffer, size, used := null, 0, 1;
    var chunk := new char[CHUNK];
    var n := ca.Read(chunk);
    while n > 0
      invariant fresh(chunk) && Reading(ca, chunk, n, buffer, size)
      invariant size <= |ca.bytes| && used >= 1 && used + Chunks(|ca.bytes| - size) == Chunks(|ca.bytes|) + 1
      invariant forall i :: 1 <= i < used ==> granted(i)
      invariant buffer == null || (fresh(buffer) && buffer != chunk)
      decreases |ca.bytes| - size
    {
      ChunkTaken(|ca.bytes| - size, n);
      if size > SIZE_MAX - n {
        return false, buffer, size, used;
      }
      if !granted(used) {
        return false, buffer, size, used;
      }
      var next;
      buffer, next := TakeChunk(ca, chunk, n, buffer, size);
      n, size, used := next, size + n, used + 1;
    }
    return true, buffer, size, used;
  }
}
