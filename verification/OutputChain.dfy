/**
  The output chain of src/core/ngx_output_chain.c, with ngx_chain_update_chains of src/core/ngx_buf.c:
  bufs that the next filter cannot take as they are get copied through at most bufs.num buffers.
  Files are read synchronously and without directio.  A chain is a sequence of bufs.
 */
module OutputChain {
  import opened Octets
  import opened Wrappers

  datatype Rc = OK | ERROR | AGAIN | DONE

  /** ngx_buf_t; pos and last count from start, and end is |mem|. */
  datatype Buf = Buf(
    mem: Bytes, pos: nat, last: nat,
    file: nat, filePos: nat, fileLast: nat,
    temporary: bool, memory: bool, mmap: bool, inFile: bool, recycled: bool,
    flush: bool, sync: bool, lastBuf: bool, lastInChain: bool,
    tag: nat)
  {
    predicate InMemory() { temporary || memory || mmap }

    predicate Special() { (flush || lastBuf || sync) && !InMemory() && !inFile }

    /** ngx_buf_size */
    function Size(): int { if InMemory() then last - pos else fileLast - filePos }
  }

  /** What the next filter does in one call: its result, and how much it has sent of each buf it holds. */
  datatype Answer = Answer(rc: Rc, took: seq<nat>)

  /** The world: files, the filter's answers, and which allocations and reads succeed. */
  datatype World = World(files: nat -> Bytes, filter: nat -> Answer, alloc: nat -> bool, read: nat -> bool)

  // ---------- what the world has said ----------

  datatype Event = Allocated(ok: bool) | HasRead(ok: bool) | Answered(rc: Rc)

  predicate Bad(e: Event) {
    match e
    case Allocated(ok) => !ok
    case HasRead(ok) => !ok
    case Answered(rc) => rc == ERROR
  }

  /** The answer to question k. */
  ghost predicate Says(w: World, k: nat, e: Event) {
    match e
    case Allocated(ok) => ok == w.alloc(k)
    case HasRead(ok) => ok == w.read(k)
    case Answered(rc) => rc == w.filter(k).rc
  }

  ghost predicate Logged(w: World, asked: nat, log: seq<Event>) {
    |log| == asked && forall k :: 0 <= k < |log| ==> Says(w, k + 1, log[k])
  }

  /** From one log to the other there is a bad event exactly if something failed, and then it is the last. */
  ghost predicate Told(before: seq<Event>, after: seq<Event>, failed: bool) {
    && before <= after
    && (failed <==> after != before && Bad(after[|after| - 1]))
    && forall k :: |before| <= k < |after| - 1 ==> !Bad(after[k])
  }

  /** What the filter has answered, call after call. */
  ghost function Answers(log: seq<Event>): seq<Rc> {
    if log == [] then []
    else
      var e := log[|log| - 1];
      Answers(log[..|log| - 1]) + if e.Answered? then [e.rc] else []
  }

  lemma ToldOne(w: World, before: seq<Event>, e: Event)
    requires Logged(w, |before|, before) && Says(w, |before| + 1, e)
    ensures Logged(w, |before| + 1, before + [e]) && Told(before, before + [e], Bad(e))
    ensures Answers(before + [e]) == Answers(before) + if e.Answered? then [e.rc] else []
  {
    assert (before + [e])[..|before|] == before;
  }

  /** Where all allocations and reads succeed and the filter never fails, nothing fails. */
  lemma NothingFails(w: World, asked: nat, before: seq<Event>, after: seq<Event>, failed: bool)
    requires Logged(w, asked, after) && Told(before, after, failed)
    requires forall k :: w.alloc(k) && w.read(k) && w.filter(k).rc != ERROR
    ensures !failed
  {
    if after != before {
      assert Says(w, |after|, after[|after| - 1]);
    }
  }

  lemma LoggedLength(w: World, asked: nat, log: seq<Event>)
    requires Logged(w, asked, log)
    ensures |log| == asked
  {
  }

  lemma ToldNone(log: seq<Event>)
    ensures Told(log, log, false)
  {
  }

  lemma ToldMore(a: seq<Event>, b: seq<Event>, c: seq<Event>, failed: bool)
    requires Told(a, b, false) && Told(b, c, failed)
    ensures Told(a, c, failed)
  {
  }

  /** What callers hand in: memory within bounds, or a range of a file, or nothing. */
  ghost predicate Sound(w: World, b: Buf) {
    if b.InMemory() then b.pos <= b.last <= |b.mem|
    else if b.inFile then b.filePos <= b.fileLast <= |w.files(b.file)|
    else b.filePos == b.fileLast
  }

  ghost predicate AllSound(w: World, bs: seq<Buf>) {
    forall i :: 0 <= i < |bs| ==> Sound(w, bs[i])
  }

  /** The bytes a buf stands for. */
  ghost function Content(w: World, b: Buf): (s: Bytes)
    requires Sound(w, b)
    ensures |s| == b.Size()
  {
    if b.InMemory() then b.mem[b.pos..b.last]
    else if b.inFile then w.files(b.file)[b.filePos..b.fileLast]
    else []
  }

  ghost function Contents(w: World, bs: seq<Buf>): Bytes
    requires AllSound(w, bs)
  {
    if bs == [] then [] else Content(w, bs[0]) + Contents(w, bs[1..])
  }

  lemma {:induction false} ContentsJoin(w: World, a: seq<Buf>, b: seq<Buf>)
    requires AllSound(w, a) && AllSound(w, b)
    ensures AllSound(w, a + b) && Contents(w, a + b) == Contents(w, a) + Contents(w, b)
  {
    hide Sound, Content;
    if a == [] {
      assert a + b == b;
    } else {
      ContentsJoin(w, a[1..], b);
      assert (a + b)[1..] == a[1..] + b;
    }
  }

  lemma ContentsOne(w: World, b: Buf)
    requires Sound(w, b)
    ensures Contents(w, [b]) == Content(w, b)
  {
  }

  // ---------- a buffer of the chain's own ----------

  ghost predicate Own(b: Buf, tag: nat) {
    b.tag == tag && b.temporary && !b.memory && !b.mmap && b.mem != [] && b.pos <= b.last <= |b.mem|
  }

  ghost predicate Empty(b: Buf) {
    b.pos == 0 && b.last == 0
  }

  /** How many bufs have the tag. */
  function Count(bs: seq<Buf>, tag: nat): nat {
    if bs == [] then 0 else (if bs[0].tag == tag then 1 else 0) + Count(bs[1..], tag)
  }

  lemma {:induction false} CountJoin(a: seq<Buf>, b: seq<Buf>, tag: nat)
    ensures Count(a + b, tag) == Count(a, tag) + Count(b, tag)
  {
    if a == [] {
      assert a + b == b;
    } else {
      CountJoin(a[1..], b, tag);
      assert (a + b)[1..] == a[1..] + b;
    }
  }

  /** Bufs that are sound, and the chain's own wherever they have its tag. */
  ghost predicate Chain(w: World, bs: seq<Buf>, tag: nat) {
    forall i :: 0 <= i < |bs| ==> Sound(w, bs[i]) && (bs[i].tag == tag ==> Own(bs[i], tag))
  }

  // ---------- what bufs signal ----------

  datatype Sign = Flush | Last | LastInChain

  /** A buf with content, or a special one, that carries the flag. */
  predicate Signals(b: Buf, sign: Sign) {
    && (b.Size() > 0 || b.Special())
    && match sign
       case Flush => b.flush
       case Last => b.lastBuf
       case LastInChain => b.lastInChain
  }

  function Signs(bs: seq<Buf>, sign: Sign): nat {
    if bs == [] then 0 else (if Signals(bs[0], sign) then 1 else 0) + Signs(bs[1..], sign)
  }

  /** The special bufs, which carry nothing else. */
  function Specials(bs: seq<Buf>): seq<Buf> {
    if bs == [] then [] else (if bs[0].Special() then [bs[0]] else []) + Specials(bs[1..])
  }

  function Head(b: Buf): seq<Buf> {
    if b.Special() then [b] else []
  }

  lemma SpecialsHead(bs: seq<Buf>)
    requires bs != []
    ensures Specials(bs) == Head(bs[0]) + Specials(bs[1..])
  {
  }

  lemma NoSigns()
    ensures Specials([]) == [] && forall sign :: Signs([], sign) == 0
  {
  }

  lemma {:induction false} SpecialsJoin(a: seq<Buf>, b: seq<Buf>)
    ensures Specials(a + b) == Specials(a) + Specials(b)
  {
    hide Specials, Head;
    if a == [] {
      NoSigns();
      assert a + b == b;
    } else {
      SpecialsJoin(a[1..], b);
      SpecialsHead(a);
      SpecialsHead(a + b);
      assert (a + b)[1..] == a[1..] + b;
      assert Head(a[0]) + Specials(a[1..]) + Specials(b) == Head(a[0]) + (Specials(a[1..]) + Specials(b));
    }
  }

  lemma {:induction false} SignsJoin(a: seq<Buf>, b: seq<Buf>, sign: Sign)
    ensures Signs(a + b, sign) == Signs(a, sign) + Signs(b, sign)
  {
    if a == [] {
      assert a + b == b;
    } else {
      SignsJoin(a[1..], b, sign);
      assert (a + b)[1..] == a[1..] + b;
    }
  }

  /** From one chain and its rest to another no special buf is lost or moved, and no sign is lost. */
  ghost predicate NoneLost(out: seq<Buf>, rest: seq<Buf>, out': seq<Buf>, rest': seq<Buf>) {
    && Specials(out') + Specials(rest') == Specials(out) + Specials(rest)
    && forall sign :: Signs(out', sign) + Signs(rest', sign) >= Signs(out, sign) + Signs(rest, sign)
  }

  lemma NoneLostDrop(out: seq<Buf>, bs: seq<Buf>)
    requires bs != [] && bs[0].Size() == 0 && !bs[0].Special()
    ensures NoneLost(out, bs, out, bs[1..])
  {
  }

  lemma NoneLostMove(out: seq<Buf>, bs: seq<Buf>, b: Buf)
    requires bs != [] && Flagged(b, bs[0]) && b.Size() == bs[0].Size() && (b.Special() <==> bs[0].Special())
    requires b.Special() ==> b == bs[0]
    ensures NoneLost(out, bs, out + [b], bs[1..])
  {
    hide Signals, Specials;
    MoveSpecials(out, bs, b);
    SameSigns(b, bs[0]);
    forall sign ensures Signs(out + [b], sign) + Signs(bs[1..], sign) >= Signs(out, sign) + Signs(bs, sign) {
      SignsJoin(out, [b], sign);
    }
  }

  lemma MoveSpecials(out: seq<Buf>, bs: seq<Buf>, b: Buf)
    requires bs != [] && (b.Special() <==> bs[0].Special()) && (b.Special() ==> b == bs[0])
    ensures Specials(out + [b]) + Specials(bs[1..]) == Specials(out) + Specials(bs)
  {
    hide Specials;
    SpecialsJoin(out, [b]);
    SpecialsHead([b]);
    SpecialsHead(bs);
    NoSigns();
    assert [b][1..] == [];
    assert Head(b) == Head(bs[0]) && Head(b) + [] == Head(b);
    assert Specials(out) + Head(b) + Specials(bs[1..]) == Specials(out) + (Head(b) + Specials(bs[1..]));
  }

  lemma NoneLostHead(out: seq<Buf>, bs: seq<Buf>, b: Buf)
    requires bs != [] && Flagged(b, bs[0]) && b.Size() == bs[0].Size() && (b.Special() <==> bs[0].Special())
    requires b.Special() ==> b == bs[0]
    ensures NoneLost(out, bs, out, [b] + bs[1..])
  {
    hide Signals;
    assert ([b] + bs[1..])[1..] == bs[1..];
    SameSigns(b, bs[0]);
  }

  lemma SameSigns(a: Buf, b: Buf)
    requires Flagged(a, b) && a.Size() == b.Size() && (a.Special() <==> b.Special())
    ensures forall sign :: Signals(a, sign) <==> Signals(b, sign)
  {
  }

  /** The copy carries the source's flags when it uses it up; until then the source keeps them. */
  lemma NoneLostCopy(out: seq<Buf>, bs: seq<Buf>, d: Buf, src: Buf)
    requires bs != [] && d.InMemory() && bs[0].Size() > 0 && !bs[0].Special()
    requires d.Size() == bs[0].Size() - src.Size() > 0 && src.Size() >= 0
    requires Flagged(src, bs[0]) && !src.Special() && (src.Size() == 0 ==> Flagged(d, bs[0]))
    ensures NoneLost(out, bs, out + [d], [src] + bs[1..])
  {
    var rest := [src] + bs[1..];
    assert rest[1..] == bs[1..];
    SpecialsJoin(out, [d]);
    forall sign ensures Signs(out + [d], sign) + Signs(rest, sign) >= Signs(out, sign) + Signs(bs, sign) {
      SignsJoin(out, [d], sign);
    }
  }

  lemma NoneLostMore(a: seq<Buf>, r: seq<Buf>, a1: seq<Buf>, r1: seq<Buf>, a2: seq<Buf>, r2: seq<Buf>)
    requires NoneLost(a, r, a1, r1) && NoneLost(a1, r1, a2, r2)
    ensures NoneLost(a, r, a2, r2)
  {
    hide Signs, Specials;
  }

  lemma NoneLostSame(a: seq<Buf>, r: seq<Buf>)
    ensures NoneLost(a, r, a, r)
  {
  }

  /** What a filling of `out` keeps, the bufs handed on before and with it keep. */
  lemma NoneLostAfter(h: seq<Buf>, r: seq<Buf>, out: seq<Buf>, r': seq<Buf>)
    requires NoneLost([], r, out, r')
    ensures NoneLost(h, r, h + out, r')
  {
    hide Signs, Specials;
    SpecialsJoin(h, out);
    NoSigns();
    assert Specials(h) + Specials(out) + Specials(r') == Specials(h) + (Specials(out) + Specials(r'));
    forall sign ensures Signs(h + out, sign) + Signs(r', sign) >= Signs(h, sign) + Signs(r, sign) {
      SignsJoin(h, out, sign);
    }
  }

  // ---------- one copy ----------

  function Min(a: nat, b: nat): nat {
    if a < b then a else b
  }

  /** src without its first n bytes. */
  function Advance(src: Buf, n: nat): Buf {
    var b := if src.InMemory() then src.(pos := src.pos + n) else src;
    if src.inFile then b.(filePos := src.filePos + n) else b
  }

  lemma AdvanceContent(w: World, b: Buf, n: nat)
    requires Sound(w, b) && n <= b.Size() && (b.InMemory() || b.inFile)
    ensures Sound(w, Advance(b, n)) && Content(w, Advance(b, n)) == Content(w, b)[n..]
    ensures Advance(b, n).Size() == b.Size() - n && Advance(b, n).tag == b.tag
  {
  }

  /** What copying n bytes of src into the empty buffer dst leaves in it. */
  function Filled(dst: Buf, src: Buf, content: Bytes, n: nat, sendfile: bool): Buf
    requires n <= |dst.mem| && n <= |content|
  {
    var d := dst.(mem := content[..n] + dst.mem[n..], last := dst.last + n);
    if !src.inFile || !sendfile then d.(inFile := false)
    else d.(inFile := true, file := src.file, filePos := src.filePos, fileLast := src.filePos + n)
  }

  lemma FilledContent(w: World, dst: Buf, src: Buf, content: Bytes, n: nat, sendfile: bool)
    requires dst.InMemory() && Empty(dst) && n <= |dst.mem| && n <= |content|
    ensures var d := Filled(dst, src, content, n, sendfile);
      Sound(w, d) && Content(w, d) == content[..n] && d.tag == dst.tag && d.temporary == dst.temporary
  {
    hide Sound, Content, Filled;
    FilledIs(dst, src, content, n, sendfile);
    TakeJoin(content, dst.mem, n);
    InMemoryIs(w, Filled(dst, src, content, n, sendfile), content[..n]);
  }

  lemma FilledIs(dst: Buf, src: Buf, content: Bytes, n: nat, sendfile: bool)
    requires dst.InMemory() && Empty(dst) && n <= |dst.mem| && n <= |content|
    ensures var d := Filled(dst, src, content, n, sendfile);
      && d.InMemory() && d.pos == 0 && d.last == n && d.mem == content[..n] + dst.mem[n..]
      && d.tag == dst.tag && d.temporary == dst.temporary
  {
  }

  lemma InMemoryIs(w: World, d: Buf, bytes: Bytes)
    requires d.InMemory() && d.pos == 0 && d.last == |bytes| <= |d.mem| && d.mem[0..|bytes|] == bytes
    ensures Sound(w, d) && Content(w, d) == bytes
  {
  }

  lemma TakeJoin(a: Bytes, b: Bytes, n: nat)
    requires n <= |a| && n <= |b|
    ensures (a[..n] + b[n..])[0..n] == a[..n] && |a[..n] + b[n..]| == |b|
  {
  }

  /** A copy splits the source's bytes between the buffer and what is left of the source. */
  lemma CopySplits(w: World, dst: Buf, src: Buf, n: nat, sendfile: bool)
    requires Sound(w, src) && (src.InMemory() || src.inFile) && n <= src.Size()
    requires dst.InMemory() && Empty(dst) && n <= |dst.mem|
    ensures var d := Filled(dst, src, Content(w, src), n, sendfile);
      && Sound(w, d) && Sound(w, Advance(src, n)) && Advance(src, n).Size() == src.Size() - n
      && Content(w, d) + Content(w, Advance(src, n)) == Content(w, src)
  {
    hide Sound, Content, Filled, Advance;
    FilledContent(w, dst, src, Content(w, src), n, sendfile);
    AdvanceContent(w, src, n);
    assert Content(w, src)[..n] + Content(w, src)[n..] == Content(w, src);
  }

  /** A buf that is in memory and in a file has the same bytes in both. */
  ghost predicate Twin(w: World, b: Buf) {
    b.InMemory() && b.inFile ==>
      && b.pos <= b.last <= |b.mem| && b.filePos <= b.fileLast <= |w.files(b.file)|
      && w.files(b.file)[b.filePos..b.fileLast] == b.mem[b.pos..b.last]
  }

  /** A copy that may be sent from the file names the bytes it has in memory, and so does what is left. */
  lemma CopyKeepsTwins(w: World, dst: Buf, src: Buf, n: nat, sendfile: bool)
    requires Sound(w, src) && (src.InMemory() || src.inFile) && n <= src.Size() && Twin(w, src)
    requires dst.InMemory() && Empty(dst) && n <= |dst.mem|
    ensures Twin(w, Filled(dst, src, Content(w, src), n, sendfile)) && Twin(w, Advance(src, n))
  {
    hide Twin, Filled, Advance, Content, Sound;
    CopyIsTwin(w, dst, src, Content(w, src), n, sendfile);
    RestIsTwin(w, src, n);
  }

  lemma CutAt(s: Bytes, a: nat, b: nat, n: nat)
    requires a + n <= b <= |s|
    ensures s[a..a + n] == s[a..b][..n] && s[a + n..b] == s[a..b][n..]
  {
  }

  lemma CopyIsTwin(w: World, dst: Buf, src: Buf, content: Bytes, n: nat, sendfile: bool)
    requires Sound(w, src) && (src.InMemory() || src.inFile) && n <= src.Size() && Twin(w, src)
    requires dst.InMemory() && Empty(dst) && n <= |dst.mem| && content == Content(w, src)
    ensures Twin(w, Filled(dst, src, content, n, sendfile))
  {
    hide Content, Sound;
    TakeJoin(content, dst.mem, n);
    if src.inFile {
      FileBytes(w, src);
      CutAt(w.files(src.file), src.filePos, src.fileLast, n);
    }
  }

  lemma FileBytes(w: World, src: Buf)
    requires Sound(w, src) && src.inFile && Twin(w, src)
    ensures src.filePos <= src.fileLast <= |w.files(src.file)| && src.fileLast - src.filePos == src.Size()
    ensures Content(w, src) == w.files(src.file)[src.filePos..src.fileLast]
  {
  }

  lemma RestIsTwin(w: World, src: Buf, n: nat)
    requires Sound(w, src) && (src.InMemory() || src.inFile) && n <= src.Size() && Twin(w, src)
    ensures Twin(w, Advance(src, n))
  {
    if src.InMemory() && src.inFile {
      FileBytes(w, src);
      CutAt(w.files(src.file), src.filePos, src.fileLast, n);
      CutAt(src.mem, src.pos, src.last, n);
    }
  }

  lemma CopyKeeps(dst: Buf, src: Buf, content: Bytes, n: nat, sendfile: bool, tag: nat)
    requires Own(dst, tag) && Empty(dst) && n <= |dst.mem| && n <= |content|
    ensures Own(Filled(dst, src, content, n, sendfile), tag) && Flagged(Filled(dst, src, content, n, sendfile), dst)
    ensures Advance(src, n).tag == src.tag && Flagged(Advance(src, n), src)
    ensures !sendfile ==> !Filled(dst, src, content, n, sendfile).inFile
    ensures Advance(src, n).InMemory() == src.InMemory() && Advance(src, n).inFile == src.inFile
    ensures Filled(dst, src, content, n, sendfile).InMemory()
  {
  }

  // ---------- the context ----------

  class Ctx {
    const sendfile: bool
    const needInMemory: bool
    const needInTemp: bool
    const num: nat               // bufs.num
    const size: nat              // bufs.size
    const tag: nat
    var buf: Option<Buf>
    var input: seq<Buf>          // ctx->in
    var free: seq<Buf>
    var busy: seq<Buf>
    var made: nat                // ctx->allocated
    var asked: nat               // how often the world has been asked
    ghost var log: seq<Event>    // and what it has said
    ghost var sent: Bytes        // all bytes handed to the filter
    ghost var handed: seq<Buf>   // and the bufs they were handed on in
    ghost var copies: nat        // how many of these were filled by a copy

    constructor (sendfile: bool, needInMemory: bool, needInTemp: bool, num: nat, size: nat, tag: nat)
      ensures this.sendfile == sendfile && this.needInMemory == needInMemory && this.needInTemp == needInTemp
      ensures this.num == num && this.size == size && this.tag == tag
      ensures input == [] && made == 0 && sent == [] && log == [] && asked == 0
      ensures handed == [] && AllSuit(handed) && copies == 0
      ensures size > 0 ==> forall w :: Valid(w)
    {
      this.sendfile, this.needInMemory, this.needInTemp := sendfile, needInMemory, needInTemp;
      this.num, this.size, this.tag := num, size, tag;
      buf, input, free, busy, made, asked, sent, log := None, [], [], [], 0, 0, [], [];
      handed, copies := [], 0;
    }

    /** How many of its own buffers the chain can still find. */
    ghost function Owned(): nat
      reads this
    {
      |free| + Count(busy, tag)
    }

    /** Between calls that did not fail. */
    ghost predicate Valid(w: World)
      reads this
    {
      && size > 0 && made <= num && Owned() <= made
      && Inputs(w, input, tag) && Chain(w, busy, tag) && Free(free, tag)
      && buf.None?
    }

    /** The filter can use the buf as it is. */
    ghost predicate Fits(b: Buf) {
      || b.Special()
      || ((needInMemory || !sendfile ==> b.InMemory()) && (needInTemp ==> !b.memory && !b.mmap))
    }

    /** It can, and does not take the buf for a part of a file that it may not send. */
    ghost predicate Suits(b: Buf) {
      Fits(b) && (!sendfile && !b.Special() ==> !b.inFile)
    }

    ghost predicate AllSuit(bs: seq<Buf>) {
      forall b :: b in bs ==> Suits(b)
    }

    ghost predicate AllFit(bs: seq<Buf>) {
      forall b :: b in bs ==> Fits(b)
    }

    /** ngx_output_chain_as_is */
    method AsIs(w: World, b: Buf) returns (r: Buf, ok: bool)
      requires Sound(w, b)
      ensures (ok <==> Acceptable(b)) && (ok <==> Fits(b)) && (ok ==> Suits(r)) && (Fits(b) <==> Fits(r))
      ensures Flagged(r, b) && (r.Special() <==> b.Special()) && (r.Special() ==> r == b)
      ensures Sound(w, r) && Content(w, r) == Content(w, b) && r.tag == b.tag && r.Size() == b.Size()
      ensures !ok ==> !r.Special() && !b.Special()
    {
      r := b;
      if b.Special() {
        return r, true;
      }
      if !sendfile {
        if !b.InMemory() {
          return r, false;
        }
        r := r.(inFile := false);
      }
      if needInMemory && !r.InMemory() {
        return r, false;
      }
      if needInTemp && (r.memory || r.mmap) {
        return r, false;
      }
      return r, true;
    }

    /** What the filter can take without a copy. */
    predicate Acceptable(b: Buf) {
      || b.Special()
      || (((sendfile && !needInMemory) || b.InMemory()) && !(needInTemp && (b.memory || b.mmap)))
    }

    lemma OwnSuits(b: Buf)
      requires Own(b, tag) && (!sendfile ==> !b.inFile)
      ensures Suits(b)
    {
    }

    /** Asks for memory. */
    method Allocate(w: World) returns (ok: bool)
      requires Logged(w, asked, log)
      modifies `asked, `log
      ensures Logged(w, asked, log) && Told(old(log), log, !ok) && Answers(log) == old(Answers(log))
    {
      LoggedLength(w, asked, log);
      asked := asked + 1;
      ok := w.alloc(asked);
      ToldOne(w, log, Allocated(ok));
      log := log + [Allocated(ok)];
    }

    /** Asks the system to read from a file. */
    method ReadFile(w: World) returns (ok: bool)
      requires Logged(w, asked, log)
      modifies `asked, `log
      ensures Logged(w, asked, log) && Told(old(log), log, !ok) && Answers(log) == old(Answers(log))
    {
      LoggedLength(w, asked, log);
      asked := asked + 1;
      ok := w.read(asked);
      ToldOne(w, log, HasRead(ok));
      log := log + [HasRead(ok)];
    }

    /** ngx_output_chain_copy_buf */
    method CopyBuf(w: World) returns (rc: Rc)
      requires input != [] && Inputs(w, input, tag) && input[0].Size() > 0 && !input[0].Special()
      requires buf.Some? && Own(buf.value, tag) && Empty(buf.value) && Logged(w, asked, log)
      modifies `buf, `input, `asked, `log, `copies
      ensures rc == OK || rc == ERROR
      ensures rc == OK ==> buf.Some? && Suits(buf.value) && copies == old(copies) + 1
      ensures Logged(w, asked, log) && Told(old(log), log, rc == ERROR) && Answers(log) == old(Answers(log))
      ensures old(input[0]).InMemory() ==> log == old(log)
      ensures rc == OK ==>
        && buf.Some? && Own(buf.value, tag) && |input| == |old(input)| && input[1..] == old(input[1..])
        && Inputs(w, input, tag) && 0 <= input[0].Size() < old(input[0].Size())
        && Sound(w, buf.value) && Sound(w, input[0])
        && Content(w, buf.value) + Content(w, input[0]) == old(Content(w, input[0]))
        && input[0].Size() == old(input[0].Size() - Min(input[0].Size(), |buf.value.mem|))
        && Flagged(buf.value, if input[0].Size() == 0 then old(input[0]) else old(buf.value))
        && (Flagged(buf.value, old(input[0])) <==> input[0].Size() == 0 || old(Flagged(buf.value, input[0])))
        && Flagged(input[0], old(input[0])) && !input[0].Special() && buf.value.InMemory()
        && buf.value.Size() == old(input[0].Size()) - input[0].Size()
    {
      hide Sound, Content, Own, Filled, Inputs, Advance, Logged, Told, Answers;
      ToldNone(log);
      var src, dst := input[0], buf.value;
      InputHead(w, input, tag);
      SameBytes(w, src);
      OwnRoom(dst, tag);
      var n := Min(src.Size(), |dst.mem|);
      if !src.InMemory() {
        var ok := ReadFile(w);
        if !ok {
          return ERROR;
        }
      }
      var bytes := if src.InMemory() then src.mem[src.pos..src.last] else w.files(src.file)[src.filePos..src.fileLast];
      var d := Filled(dst, src, bytes, n, sendfile);
      CopySplits(w, dst, src, n, sendfile);
      CopyKeeps(dst, src, bytes, n, sendfile, tag);
      src := Advance(src, n);
      if src.Size() == 0 {
        d := d.(flush := src.flush, lastBuf := src.lastBuf, lastInChain := src.lastInChain);
      }
      SameContent(w, Filled(dst, input[0], bytes, n, sendfile), d, tag);
      OwnSuits(d);
      InputSet(w, input, src, tag);
      buf, input, copies := Some(d), [src] + input[1..], copies + 1;
      return OK;
    }

    /** ngx_output_chain_get_buf: a small last buf gets a buffer of its size. */
    method GetBuf(w: World) returns (rc: Rc)
      requires size > 0 && input != [] && input[0].Size() > 0 && Logged(w, asked, log)
      modifies `buf, `made, `asked, `log
      ensures rc == OK || rc == ERROR
      ensures Logged(w, asked, log) && Told(old(log), log, rc == ERROR) && Answers(log) == old(Answers(log))
      ensures rc == OK ==>
        && buf.Some? && Own(buf.value, tag) && Empty(buf.value) && made == old(made) + 1
        && |buf.value.mem| == (if buf.value.recycled then size else input[0].Size())
        && (buf.value.recycled ||
              (input[0].lastInChain &&
                (input[0].Size() < size || (num == 1 && input[0].Size() < size + size / 4))))
      ensures rc == ERROR ==> made == old(made)
    {
      hide Logged, Told, Answers;
      var s: nat, recycled := size, true;
      var bsize := input[0].Size();
      if input[0].lastInChain {
        if bsize < s {
          s, recycled := bsize, false;
        } else if num == 1 && bsize < s + s / 4 {
          s, recycled := bsize, false;
        }
      }
      var ok := Allocate(w);
      if !ok {
        return ERROR;
      }
      buf := Some(Buf(seq(s, _ => 0), 0, 0, 0, 0, 0, true, false, false, false, recycled,
                      false, false, false, false, tag));
      made := made + 1;
      return OK;
    }

    /** A buffer to copy to: a free one, or a new one while there may be more and nothing waits to be sent. */
    method GetSpare(w: World, waiting: bool) returns (rc: Rc)
      requires size > 0 && input != [] && input[0].Size() > 0 && Free(free, tag) && made <= num && buf.None?
      requires Logged(w, asked, log)
      modifies `buf, `free, `made, `asked, `log
      ensures Logged(w, asked, log) && Told(old(log), log, rc == ERROR) && Answers(log) == old(Answers(log))
      ensures rc in {OK, AGAIN, ERROR} && made <= num
      ensures rc == OK ==> buf.Some? && Own(buf.value, tag) && Empty(buf.value)
      ensures rc == OK ==> Free(free, tag) && |free| + 1 - made == old(|free| - made)
      ensures rc == AGAIN <==> old(free) == [] && (waiting || old(made) == num)
      ensures rc == AGAIN ==> made == old(made) && free == old(free) && buf == old(buf)
    {
      hide Own, Free, Logged, Told, Answers;
      ToldNone(log);
      if free != [] {
        FreeHead(free, tag);
        buf, free := Some(free[0]), free[1..];
        return OK;
      }
      if waiting || made == num {
        return AGAIN;
      }
      rc := GetBuf(w);
    }

    /** The call of the filter: it gets `out`, and may send from all bufs it holds. */
    method Filter(w: World, out: seq<Buf>) returns (rc: Rc, left: seq<Buf>)
      requires Chain(w, busy, tag) && Chain(w, out, tag) && Logged(w, asked, log) && AllSuit(out) && AllSuit(handed)
      modifies `busy, `asked, `log, `sent, `handed
      ensures handed == old(handed) + out && AllSuit(handed)
      ensures Logged(w, asked, log) && Told(old(log), log, rc == ERROR) && Answers(log) == old(Answers(log)) + [rc]
      ensures Chain(w, busy, tag) && Chain(w, left, tag)
      ensures sent == old(sent) + Contents(w, out)
      ensures Count(busy, tag) == old(Count(busy, tag)) && Count(left, tag) == Count(out, tag)
      ensures left == [] <==> out == []
    {
      hide Sound, Content, Own, Advance, Count, Logged, Told, Answers;
      LoggedLength(w, asked, log);
      ToldOne(w, log, Answered(w.filter(asked + 1).rc));
      asked := asked + 1;
      log := log + [Answered(w.filter(asked).rc)];
      ChainSound(w, out, tag);
      sent, handed := sent + Contents(w, out), handed + out;
      var answer := w.filter(asked);
      ConsumedChain(w, busy, answer.took, tag);
      var n := if |busy| < |answer.took| then |busy| else |answer.took|;
      ConsumedChain(w, out, answer.took[n..], tag);
      busy := Consumed(busy, answer.took);
      return answer.rc, Consumed(out, answer.took[n..]);
    }

    /** ngx_chain_update_chains: `out` becomes busy, and leading bufs that are sent are taken back or dropped. */
    method UpdateChains(w: World, out: seq<Buf>)
      requires Chain(w, busy, tag) && Chain(w, out, tag) && Free(free, tag)
      modifies `busy, `free
      ensures Chain(w, busy, tag) && Free(free, tag)
      ensures Owned() == old(Owned()) + Count(out, tag)
      ensures busy != [] ==> busy[0].Size() != 0
    {
      hide Sound, Own;
      CountJoin(busy, out, tag);
      busy := busy + out;
      while busy != []
        invariant Chain(w, busy, tag) && Free(free, tag)
        invariant Owned() == old(Owned()) + Count(out, tag)
        decreases |busy|
      {
        var b := busy[0];
        if b.Size() != 0 {
          break;
        }
        if b.tag != tag {
          busy := busy[1..];
          continue;
        }
        TakeBack(b, tag);
        FreeNext(b.(pos := 0, last := 0), free, tag);
        free := [b.(pos := 0, last := 0)] + free;
        busy := busy[1..];
      }
    }

    /** ngx_output_chain_add_copy */
    method AddCopy(w: World, add: seq<Buf>) returns (rc: Rc)
      requires Logged(w, asked, log)
      modifies `input, `asked, `log
      ensures rc == OK || rc == ERROR
      ensures Logged(w, asked, log) && Told(old(log), log, rc == ERROR) && Answers(log) == old(Answers(log))
      ensures rc == OK ==> input == old(input) + add
    {
      hide Logged, Told, Answers;
      ToldNone(log);
      var i := 0;
      while i < |add|
        invariant i <= |add| && input == old(input) + add[..i]
        invariant Logged(w, asked, log) && Told(old(log), log, false) && Answers(log) == old(Answers(log))
      {
        ghost var log1 := log;
        var ok := Allocate(w);
        ToldMore(old(log), log1, log, !ok);
        if !ok {
          return ERROR;
        }
        assert add[..i + 1] == add[..i] + [add[i]];
        input := input + [add[i]];
        i := i + 1;
      }
      assert add[..i] == add;
      return OK;
    }

    /** The part of a round that copies from the first buf. */
    method CopyRound(w: World, out: seq<Buf>) returns (rc: Rc, out': seq<Buf>)
      requires Valid(w) && input != [] && Chain(w, out, tag) && Logged(w, asked, log)
      requires input[0].Size() > 0 && !input[0].Special() && !Fits(input[0])
      modifies `buf, `input, `free, `made, `asked, `log, `copies
      ensures rc in {OK, AGAIN, ERROR}
      ensures rc != ERROR && AllSuit(out) ==> AllSuit(out')
      ensures rc != ERROR ==> NoneLost(out, old(input), out', input)
      ensures Logged(w, asked, log) && Told(old(log), log, rc == ERROR) && Answers(log) == old(Answers(log))
      ensures rc != ERROR ==> Valid(w) && Chain(w, out', tag)
      ensures rc != ERROR ==> Bytes2(w, out', input) == old(Bytes2(w, out, input))
      ensures rc != ERROR ==> Owned() + Count(out', tag) - made == old(Owned() + Count(out, tag) - made)
      ensures rc == OK ==> Weight(input) < old(Weight(input))
      ensures rc == AGAIN ==> input == old(input) && out' == out
      ensures rc == AGAIN ==> free == [] && (out != [] || made == num)
      ensures made <= num
    {
      hide Sound, Content, Own, Inputs, Chain, Free, Bytes2, Weight, Count, Acceptable, Fits, Suits, Flagged, Logged,
        Told, Answers, NoneLost;
      NoneLostSame(out, input);
      out' := out;
      ghost var before := input;
      rc := GetSpare(w, out != []);
      if rc != OK {
        return;
      }
      ghost var log1 := log;
      InputHead(w, input, tag);
      rc := CopyBuf(w);
      ToldMore(old(log), log1, log, rc == ERROR);
      if rc == ERROR {
        return;
      }
      CopyHead(w, out, before, buf.value, input, tag);
      assert input == [input[0]] + before[1..];
      NoneLostCopy(out, before, buf.value, input[0]);
      out' := out + [buf.value];
      ghost var rest := input;
      if input[0].Size() == 0 {
        DropHead(w, out', input, tag);
        NoneLostDrop(out', input);
        NoneLostMore(out, before, out', rest, out', input[1..]);
        input := input[1..];
      }
      ghost var log2 := log;
      var ok := Allocate(w);
      ToldMore(old(log), log2, log, !ok);
      buf := None;
      rc := if ok then OK else ERROR;
    }

    /** One round of the inner loop: OK to go on, AGAIN to call the filter first. */
    method Round(w: World, out: seq<Buf>) returns (rc: Rc, out': seq<Buf>)
      requires Valid(w) && input != [] && Chain(w, out, tag) && Logged(w, asked, log)
      modifies `buf, `input, `free, `made, `asked, `log, `copies
      ensures rc in {OK, AGAIN, ERROR}
      ensures rc != ERROR && AllSuit(out) ==> AllSuit(out')
      ensures rc != ERROR ==> NoneLost(out, old(input), out', input)
      ensures old(AllFit(input)) ==> copies == old(copies) && AllFit(input)
      ensures Logged(w, asked, log) && Told(old(log), log, rc == ERROR) && Answers(log) == old(Answers(log))
      ensures rc != ERROR ==> Valid(w) && Chain(w, out', tag)
      ensures rc != ERROR ==> Bytes2(w, out', input) == old(Bytes2(w, out, input))
      ensures rc != ERROR ==> Owned() + Count(out', tag) - made == old(Owned() + Count(out, tag) - made)
      ensures rc == OK ==> Weight(input) < old(Weight(input))
      ensures rc == AGAIN ==> Weight(input) == old(Weight(input)) && out' == out
      ensures rc == AGAIN ==> input != [] && free == [] && (out != [] || made == num)
      ensures made <= num
    {
      hide Sound, Content, Own, Inputs, Chain, Free, Bytes2, Weight, Count, Acceptable, Flagged, Logged, Told, Answers,
        NoneLost;
      ToldNone(log);
      NoneLostSame(out, input);
      out' := out;
      var b := input[0];
      InputHead(w, input, tag);
      if b.Size() == 0 && !b.Special() {
        DropHead(w, out, input, tag);
        NoneLostDrop(out, input);
        input := input[1..];
        return OK, out;
      }
      var asIs;
      b, asIs := AsIs(w, b);
      SetHead(w, out, input, b, tag);
      if asIs {
        MoveHead(w, out, [b] + input[1..], tag);
        NoneLostMove(out, input, b);
        out' := out + [b];
        input := input[1..];
        return OK, out';
      }
      NoneLostHead(out, input, b);
      ghost var first := input;
      SizeOf(w, b);
      input := [b] + input[1..];
      ghost var second := input;
      rc, out' := CopyRound(w, out);
      if rc != ERROR {
        NoneLostMore(out, first, out, second, out', input);
      }
    }

    lemma SizeOf(w: World, b: Buf)
      requires Sound(w, b)
      ensures b.Size() >= 0
    {
    }

    /** The inner loop: bufs go to `out`, as they are or copied, while there are buffers to copy to. */
    method Fill(w: World) returns (rc: Rc, out: seq<Buf>)
      requires Valid(w) && Logged(w, asked, log)
      modifies `buf, `input, `free, `made, `asked, `log, `copies
      ensures rc in {OK, ERROR}
      ensures rc == OK ==> AllSuit(out) && NoneLost([], old(input), out, input)
      ensures old(AllFit(input)) ==> copies == old(copies) && AllFit(input)
      ensures Logged(w, asked, log) && Told(old(log), log, rc == ERROR) && Answers(log) == old(Answers(log))
      ensures rc == OK ==> Valid(w) && Chain(w, out, tag)
      ensures made <= num
      ensures rc == OK ==> Bytes2(w, out, input) == old(Bytes2(w, [], input))
      ensures rc == OK ==> Owned() + Count(out, tag) - made == old(Owned() - made)
      ensures rc == OK ==> Weight(input) <= old(Weight(input)) && (out != [] ==> Weight(input) < old(Weight(input)))
      ensures rc == OK && input != [] ==> free == [] && (out != [] || made == num)
    {
      hide Sound, Own, Inputs, Chain, Free, Bytes2, Weight, Count, Logged, Told, Answers,
        NoneLost;
      ToldNone(log);
      out := [];
      NoneLostSame([], input);
      EmptyChain(w, tag);
      ChainsSound(w, out, input, tag);
      while input != []
        invariant Valid(w) && Chain(w, out, tag) && BothSound(w, out, input)
        invariant Bytes2(w, out, input) == old(Bytes2(w, [], input))
        invariant Owned() + Count(out, tag) - made == old(Owned() - made)
        invariant Weight(input) <= old(Weight(input)) && (out != [] ==> Weight(input) < old(Weight(input)))
        invariant Logged(w, asked, log) && Told(old(log), log, false) && Answers(log) == old(Answers(log))
        invariant AllSuit(out) && NoneLost([], old(input), out, input)
        invariant old(AllFit(input)) ==> copies == old(copies) && AllFit(input)
        decreases Weight(input)
      {
        ghost var log1, out1, input1 := log, out, input;
        rc, out := Round(w, out);
        if rc != ERROR {
          NoneLostMore([], old(input), out1, input1, out, input);
        }
        ToldMore(old(log), log1, log, rc == ERROR);
        if rc == ERROR {
          return;
        }
        ChainsSound(w, out, input, tag);
        if rc == AGAIN {
          break;
        }
      }
      rc := OK;
    }

    /** The result is the filter's last answer, of one that was called since then, or AGAIN for want of buffers. */
    ghost predicate Passed(before: seq<Rc>, rc: Rc)
      reads this
    {
      && before < Answers(log)
      && (Answers(log)[|Answers(log)| - 1] == rc || (rc == AGAIN && input != []))
    }

    /** What the filter has answered last in this call, if it was called. */
    ghost predicate LastAnswer(before: seq<Rc>, after: seq<Rc>, last: Option<Rc>) {
      && before <= after
      && (last.Some? ==> |after| > |before| && after[|after| - 1] == last.value)
    }

    /** The outer loop: fill a chain, hand it to the filter, take back what has been sent. */
    method Drive(w: World) returns (rc: Rc)
      requires Valid(w) && Logged(w, asked, log) && AllSuit(handed)
      modifies this
      ensures Logged(w, asked, log) && Told(old(log), log, rc == ERROR)
      ensures rc != ERROR ==> Passed(old(Answers(log)), rc)
      ensures old(handed) <= handed && AllSuit(handed)
      ensures rc != ERROR ==> NoneLost(old(handed), old(input), handed, input)
      ensures old(AllFit(input)) ==> copies == old(copies)
      ensures made <= num
      ensures rc != ERROR ==> Valid(w) && AllSound(w, input) && old(AllSound(w, input))
      ensures rc != ERROR ==> sent + Contents(w, input) == old(sent + Contents(w, input))
      ensures rc != ERROR && rc != DONE ==> Owned() - made == old(Owned() - made)
      ensures rc == OK ==> input == []
      ensures rc == AGAIN && input != [] ==> free == [] && made == num
    {
      hide Sound, Own, Inputs, Chain, Free, Weight, Count, Contents, Bytes2, Logged, Told, Answers, AllSuit, AllFit,
        NoneLost;
      ToldNone(log);
      NoneLostSame(handed, input);
      var last: Option<Rc> := None;
      InputsSound(w, input, tag);
      EmptyChain(w, tag);
      ghost var all := sent + Contents(w, input);
      while true
        invariant Valid(w) && AllSound(w, input) && sent + Contents(w, input) == all
        invariant Owned() - made == old(Owned() - made)
        invariant Logged(w, asked, log) && Told(old(log), log, false)
        invariant LastAnswer(old(Answers(log)), Answers(log), last)
        invariant last.Some? ==> last.value in {OK, AGAIN}
        invariant old(handed) <= handed && AllSuit(handed) && NoneLost(old(handed), old(input), handed, input)
        invariant old(AllFit(input)) ==> copies == old(copies) && AllFit(input)
        decreases Weight(input), last.None?
      {
        ghost var before, log1 := input, log;
        var out;
        rc, out := Fill(w);
        ToldMore(old(log), log1, log, rc == ERROR);
        if rc == ERROR {
          return;
        }
        Balance(w, before, out, input, tag);
        NoneLostAfter(handed, before, out, input);
        NoneLostMore(old(handed), old(input), handed, before, handed + out, input);
        assert out == [] ==> handed + out == handed;
        if out == [] && last.Some? {
          if input != [] {
            return AGAIN;
          }
          return last.value;
        }
        ghost var log2 := log;
        rc, out := Filter(w, out);
        ToldMore(old(log), log2, log, rc == ERROR);
        last := Some(rc);
        if rc == ERROR || rc == DONE {
          return rc;
        }
        UpdateChains(w, out);
      }
    }

    /** The short path, for an empty chain: nothing at all, or one buf that needs no copy, goes to the filter. */
    method Shortcut(w: World, add: seq<Buf>) returns (rc: Rc, done: bool)
      requires Valid(w) && Inputs(w, add, tag) && Logged(w, asked, log) && AllSuit(handed) && input == [] == busy
      modifies `busy, `asked, `log, `sent, `handed
      ensures Logged(w, asked, log) && AllSuit(handed)
      ensures !done ==> unchanged(this)
      ensures done ==> Told(old(log), log, rc == ERROR) && Answers(log) == old(Answers(log)) + [rc]
      ensures done ==> Valid(w) && AllSound(w, add) && Count(busy, tag) == old(Count(busy, tag))
      ensures done ==> sent == old(sent) + Contents(w, add) && old(handed) <= handed
      ensures done ==> NoneLost(old(handed), add, handed, [])
    {
      hide Sound, Own, Inputs, Chain, Free, Count, Contents, Content, Logged, Told, Answers, NoneLost;
      var left;
      InputsSound(w, add, tag);
      EmptyChain(w, tag);
      if add == [] {
        rc, left := Filter(w, []);
        NoneLostSame(handed, []);
        assert old(handed) + [] == old(handed);
        return rc, true;
      }
      if |add| == 1 {
        InputHead(w, add, tag);
        var b, asIs := AsIs(w, add[0]);
        if asIs {
          SingleBuf(w, add, b, tag);
          NoneLostMove(handed, add, b);
          assert add[1..] == [];
          rc, left := Filter(w, [b]);
          return rc, true;
        }
      }
      return OK, false;
    }

    /**
      ngx_output_chain.  Unless it fails, the bytes handed to the filter and those still in ctx->in
      are the bytes there were, followed by the new ones; and no buffer is lost.
    */
    method Run(w: World, add: seq<Buf>) returns (rc: Rc)
      requires Valid(w) && Inputs(w, add, tag) && Logged(w, asked, log) && AllSuit(handed)
      modifies this
      ensures Logged(w, asked, log) && Told(old(log), log, rc == ERROR)
      ensures rc != ERROR ==> Passed(old(Answers(log)), rc)
      ensures old(handed) <= handed && AllSuit(handed)
      ensures rc != ERROR ==> NoneLost(old(handed), old(input) + add, handed, input)
      ensures old(AllFit(input)) && AllFit(add) ==> copies == old(copies)
      ensures made <= num
      ensures rc != ERROR ==> Valid(w) && AllSound(w, input) && AllSound(w, add) && old(AllSound(w, input))
      ensures rc != ERROR ==> sent + Contents(w, input) == old(sent + Contents(w, input)) + Contents(w, add)
      ensures rc != ERROR && rc != DONE ==> Owned() - made == old(Owned() - made)
      ensures rc == OK ==> input == []
      ensures rc == AGAIN && input != [] ==> free == [] && made == num
    {
      hide Sound, Own, Inputs, Chain, Free, Count, Contents, Content, Logged, Told, Answers, NoneLost;
      ToldNone(log);
      InputsSound(w, input, tag);
      InputsSound(w, add, tag);
      EmptyChain(w, tag);
      if input == [] && busy == [] {
        var done;
        rc, done := Shortcut(w, add);
        if done {
          assert [] + add == add;
          return;
        }
      }
      InputsJoin(w, input, add, tag);
      if add != [] {
        rc := AddCopy(w, add);
        if rc == ERROR {
          return;
        }
      } else {
        assert input == input + add;
      }
      ghost var log1 := log;
      rc := Drive(w);
      ToldMore(old(log), log1, log, rc == ERROR);
    }
  }

  lemma InputsSound(w: World, bs: seq<Buf>, tag: nat)
    requires Inputs(w, bs, tag)
    ensures AllSound(w, bs)
  {
    hide Sound;
  }

  lemma InputsJoin(w: World, a: seq<Buf>, b: seq<Buf>, tag: nat)
    requires Inputs(w, a, tag) && Inputs(w, b, tag)
    ensures Inputs(w, a + b, tag) && AllSound(w, a) && AllSound(w, b) && AllSound(w, a + b)
    ensures Contents(w, a + b) == Contents(w, a) + Contents(w, b)
  {
    hide Sound, Content;
    InputsSound(w, a, tag);
    InputsSound(w, b, tag);
    ContentsJoin(w, a, b);
  }

  lemma SingleBuf(w: World, bs: seq<Buf>, b: Buf, tag: nat)
    requires |bs| == 1 && Inputs(w, bs, tag) && b.tag == bs[0].tag
    requires Sound(w, b) && Sound(w, bs[0]) && Content(w, b) == Content(w, bs[0])
    ensures Chain(w, [b], tag) && AllSound(w, bs) && AllSound(w, [b]) && Contents(w, [b]) == Contents(w, bs)
  {
    hide Sound, Content;
    ContentsOne(w, b);
    ContentsOne(w, bs[0]);
    assert bs == [bs[0]];
  }

  /** What Fill has moved is what the chain had. */
  lemma Balance(w: World, before: seq<Buf>, out: seq<Buf>, input: seq<Buf>, tag: nat)
    requires AllSound(w, before) && Chain(w, out, tag) && Inputs(w, input, tag)
    requires AllSound(w, []) && AllSound(w, out) && AllSound(w, input) ==>
      Bytes2(w, out, input) == Bytes2(w, [], before)
    ensures AllSound(w, out) && AllSound(w, input) && Contents(w, out) + Contents(w, input) == Contents(w, before)
    ensures out == [] ==> Contents(w, input) == Contents(w, before)
  {
    hide Sound, Content;
    ChainsSound(w, out, input, tag);
    assert Contents(w, []) == [];
    assert [] + Contents(w, before) == Contents(w, before);
  }

  ghost predicate BothSound(w: World, a: seq<Buf>, b: seq<Buf>) {
    AllSound(w, a) && AllSound(w, b)
  }

  lemma EmptyChain(w: World, tag: nat)
    ensures Chain(w, [], tag) && AllSound(w, []) && Count([], tag) == 0 && Contents(w, []) == []
  {
  }

  lemma FreeHead(bs: seq<Buf>, tag: nat)
    requires bs != [] && Free(bs, tag)
    ensures Own(bs[0], tag) && Empty(bs[0]) && Free(bs[1..], tag)
  {
  }

  lemma ChainsSound(w: World, a: seq<Buf>, b: seq<Buf>, tag: nat)
    requires Chain(w, a, tag) && Inputs(w, b, tag)
    ensures AllSound(w, a) && AllSound(w, b)
  {
    hide Sound, Own;
  }

  /** A buf of size zero can go. */
  lemma DropHead(w: World, out: seq<Buf>, bs: seq<Buf>, tag: nat)
    requires bs != [] && Chain(w, out, tag) && Inputs(w, bs, tag) && bs[0].Size() == 0
    ensures Inputs(w, bs[1..], tag) && AllSound(w, out) && AllSound(w, bs) && AllSound(w, bs[1..])
    ensures Bytes2(w, out, bs[1..]) == Bytes2(w, out, bs) && Weight(bs[1..]) < Weight(bs)
  {
    hide Sound, Own, Content;
    ChainsSound(w, out, bs, tag);
    ChainsSound(w, out, bs[1..], tag);
    assert Content(w, bs[0]) == [];
  }

  /** The first buf may be replaced by one with the same bytes. */
  lemma SetHead(w: World, out: seq<Buf>, bs: seq<Buf>, b: Buf, tag: nat)
    requires bs != [] && Chain(w, out, tag) && Inputs(w, bs, tag)
    requires Sound(w, b) && b.tag == bs[0].tag && Sound(w, bs[0]) && Content(w, b) == Content(w, bs[0])
    requires b.Size() == bs[0].Size()
    ensures var bs' := [b] + bs[1..];
      && Inputs(w, bs', tag) && AllSound(w, out) && AllSound(w, bs) && AllSound(w, bs')
      && Bytes2(w, out, bs') == Bytes2(w, out, bs) && Weight(bs') == Weight(bs)
  {
    hide Sound, Own, Content;
    var bs' := [b] + bs[1..];
    assert bs'[1..] == bs[1..];
    ChainsSound(w, out, bs, tag);
    ChainsSound(w, out, bs', tag);
  }

  /** Moving the first buf over keeps the bytes. */
  lemma MoveHead(w: World, out: seq<Buf>, bs: seq<Buf>, tag: nat)
    requires bs != [] && Chain(w, out, tag) && Inputs(w, bs, tag)
    ensures var out' := out + [bs[0]];
      && Inputs(w, bs[1..], tag) && Chain(w, out', tag) && Count(out', tag) == Count(out, tag)
      && AllSound(w, out) && AllSound(w, bs) && AllSound(w, out') && AllSound(w, bs[1..])
      && Bytes2(w, out', bs[1..]) == Bytes2(w, out, bs) && Weight(bs[1..]) < Weight(bs)
  {
    hide Sound, Own, Content;
    var out' := out + [bs[0]];
    ChainsSound(w, out, bs, tag);
    ChainsSound(w, out', bs[1..], tag);
    ContentsOne(w, bs[0]);
    ContentsJoin(w, out, [bs[0]]);
    CountJoin(out, [bs[0]], tag);
  }

  /** So does moving some of its bytes over in a buffer. */
  lemma CopyHead(w: World, out: seq<Buf>, bs: seq<Buf>, d: Buf, bs': seq<Buf>, tag: nat)
    requires bs != [] && |bs'| == |bs| && bs'[1..] == bs[1..]
    requires Chain(w, out, tag) && Inputs(w, bs, tag) && Inputs(w, bs', tag) && Own(d, tag)
    requires Sound(w, bs[0]) && Sound(w, bs'[0]) && Sound(w, d)
    requires Content(w, d) + Content(w, bs'[0]) == Content(w, bs[0])
    requires 0 <= bs'[0].Size() < bs[0].Size()
    ensures var out' := out + [d];
      && Chain(w, out', tag) && Count(out', tag) == Count(out, tag) + 1
      && AllSound(w, out) && AllSound(w, bs) && AllSound(w, out') && AllSound(w, bs')
      && Bytes2(w, out', bs') == Bytes2(w, out, bs) && Weight(bs') < Weight(bs)
  {
    hide Sound, Own, Content, Contents, Chain;
    var out' := out + [d];
    OwnTag(d, tag);
    ChainNext(w, out, d, tag);
    ChainsSound(w, out, bs, tag);
    ChainsSound(w, out', bs', tag);
    ContentsOne(w, d);
    ContentsJoin(w, out, [d]);
    ContentsHead(w, bs);
    ContentsHead(w, bs');
    CountJoin(out, [d], tag);
    Regroup(Contents(w, out), Content(w, d), Content(w, bs'[0]), Contents(w, bs[1..]));
  }

  lemma ChainNext(w: World, bs: seq<Buf>, d: Buf, tag: nat)
    requires Chain(w, bs, tag) && Own(d, tag) && Sound(w, d)
    ensures Chain(w, bs + [d], tag)
  {
    hide Sound, Own;
  }

  lemma ContentsHead(w: World, bs: seq<Buf>)
    requires bs != [] && AllSound(w, bs)
    ensures AllSound(w, bs[1..]) && Contents(w, bs) == Content(w, bs[0]) + Contents(w, bs[1..])
  {
    hide Sound, Content;
  }

  lemma Regroup(a: Bytes, b: Bytes, c: Bytes, d: Bytes)
    ensures (a + b) + (c + d) == a + ((b + c) + d)
  {
  }

  lemma OwnTag(d: Buf, tag: nat)
    requires Own(d, tag)
    ensures d.tag == tag
  {
  }

  /** The bytes of two chains, one after the other. */
  ghost function Bytes2(w: World, a: seq<Buf>, b: seq<Buf>): Bytes
    requires AllSound(w, a) && AllSound(w, b)
  {
    Contents(w, a) + Contents(w, b)
  }

  /** How much work is in a chain. */
  function Weight(bs: seq<Buf>): nat {
    if bs == [] then 0 else 1 + (if bs[0].Size() > 0 then bs[0].Size() else 0) + Weight(bs[1..])
  }

  /** What is left of the bufs after the filter has sent some of each. */
  function Consumed(bs: seq<Buf>, took: seq<nat>): (r: seq<Buf>)
    ensures |r| == |bs|
  {
    if bs == [] then []
    else if took == [] then bs
    else [ConsumedBuf(bs[0], took[0])] + Consumed(bs[1..], took[1..])
  }

  function ConsumedBuf(b: Buf, took: nat): Buf {
    if (b.InMemory() || b.inFile) && b.Size() >= 0 then Advance(b, Min(took, b.Size())) else b
  }

  lemma ConsumedOne(w: World, b: Buf, took: nat, tag: nat)
    requires Sound(w, b) && (b.tag == tag ==> Own(b, tag))
    ensures var r := ConsumedBuf(b, took); r.tag == b.tag && Sound(w, r) && (r.tag == tag ==> Own(r, tag))
  {
    hide Content, Advance, Sound, Own;
    SoundSize(w, b);
    if b.InMemory() || b.inFile {
      AdvanceContent(w, b, Min(took, b.Size()));
      if b.tag == tag {
        AdvanceOwn(b, Min(took, b.Size()), tag);
      }
    }
  }

  lemma SoundSize(w: World, b: Buf)
    requires Sound(w, b)
    ensures b.Size() >= 0
  {
  }

  lemma AdvanceOwn(b: Buf, n: nat, tag: nat)
    requires Own(b, tag) && n <= b.Size()
    ensures Own(Advance(b, n), tag)
  {
  }

  lemma {:induction false} ConsumedChain(w: World, bs: seq<Buf>, took: seq<nat>, tag: nat)
    requires Chain(w, bs, tag)
    ensures Chain(w, Consumed(bs, took), tag) && Count(Consumed(bs, took), tag) == Count(bs, tag)
  {
    hide Sound, Own, ConsumedBuf;
    if bs != [] && took != [] {
      ConsumedOne(w, bs[0], took[0], tag);
      ConsumedChain(w, bs[1..], took[1..], tag);
    }
  }

  lemma ChainSound(w: World, bs: seq<Buf>, tag: nat)
    requires Chain(w, bs, tag)
    ensures AllSound(w, bs)
  {
  }

  lemma TakeBack(b: Buf, tag: nat)
    requires Own(b, tag)
    ensures Own(b.(pos := 0, last := 0), tag)
  {
  }

  lemma FreeNext(b: Buf, bs: seq<Buf>, tag: nat)
    requires Free(bs, tag) && Own(b, tag) && Empty(b)
    ensures Free([b] + bs, tag)
  {
  }

  /** b carries the flags of a. */
  predicate Flagged(b: Buf, a: Buf) {
    b.flush == a.flush && b.lastBuf == a.lastBuf && b.lastInChain == a.lastInChain
  }

  lemma InputHead(w: World, bs: seq<Buf>, tag: nat)
    requires bs != [] && Inputs(w, bs, tag)
    ensures Sound(w, bs[0]) && bs[0].tag != tag && Inputs(w, bs[1..], tag)
  {
  }

  lemma InputSet(w: World, bs: seq<Buf>, b: Buf, tag: nat)
    requires bs != [] && Inputs(w, bs, tag) && Sound(w, b) && b.tag != tag
    ensures Inputs(w, [b] + bs[1..], tag) && ([b] + bs[1..])[1..] == bs[1..]
  {
    hide Sound;
  }

  lemma OwnRoom(b: Buf, tag: nat)
    requires Own(b, tag)
    ensures |b.mem| > 0 && b.InMemory()
  {
  }

  ghost predicate Inputs(w: World, bs: seq<Buf>, tag: nat) {
    forall i :: 0 <= i < |bs| ==> Sound(w, bs[i]) && bs[i].tag != tag
  }

  ghost predicate Free(bs: seq<Buf>, tag: nat) {
    forall i :: 0 <= i < |bs| ==> Own(bs[i], tag) && Empty(bs[i])
  }

  lemma SameBytes(w: World, b: Buf)
    requires Sound(w, b) && (b.InMemory() || b.inFile)
    ensures Content(w, b) == if b.InMemory() then b.mem[b.pos..b.last] else w.files(b.file)[b.filePos..b.fileLast]
  {
  }

  lemma SameContent(w: World, a: Buf, b: Buf, tag: nat)
    requires Sound(w, a) && Own(a, tag)
    requires b == a || b == a.(flush := b.flush, lastBuf := b.lastBuf, lastInChain := b.lastInChain)
    ensures Sound(w, b) && Content(w, b) == Content(w, a) && Own(b, tag)
  {
  }

  /**
    A buffer of four bytes that has carried a flush, was sent and is used again, for the first half of
    eight bytes that are not to be flushed: it goes out with the old flag.
   */
  method StaleFlush(w: World) returns (c: Ctx)
    ensures c.buf.Some? && |c.input| == 1 && Sound(w, c.buf.value) && Sound(w, c.input[0])
    ensures Content(w, c.buf.value) == [1, 2, 3, 4] && c.buf.value.flush
    ensures Content(w, c.input[0]) == [5, 6, 7, 8] && !c.input[0].flush
  {
    var bytes: Bytes := [1, 2, 3, 4, 5, 6, 7, 8];
    c := new Ctx(false, false, true, 1, 4, 1);
    c.buf := Some(Buf([0, 0, 0, 0], 0, 0, 0, 0, 0, true, false, false, false, true, true, false, false, false, 1));
    c.input := [Buf(bytes, 0, 8, 0, 0, 0, false, true, false, false, false, false, false, false, false, 0)];
    assert Content(w, c.input[0]) == bytes;
    var rc := c.CopyBuf(w);
    Halves(bytes, Content(w, c.buf.value), Content(w, c.input[0]), 4);
  }

  lemma Halves(s: Bytes, a: Bytes, b: Bytes, n: nat)
    requires s == a + b && |b| + n == |s|
    ensures a == s[..n] && b == s[n..]
  {
  }
}
