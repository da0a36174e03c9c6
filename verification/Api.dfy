/** The protocol as docs/dev/api.md writes it, in words rather than bytes, and that the server speaks exactly that. */
module Api {
  import opened Bytes
  import opened Forum
  import opened Wire

  function Ascii(s: string): (r: bytes)
    ensures |r| == |s|
  {
    seq(|s|, i requires 0 <= i < |s| => s[i] as int % 256)
  }

  predicate Starts(p: bytes, prefix: bytes) {
    |prefix| <= |p| && p[..|prefix|] == prefix
  }

  // ------------------------------------------------------------------------- words

  lemma Commands()
    ensures GTHR == Ascii("GTHR") && CTHR == Ascii("CTHR") && FTHR == Ascii("FTHR") && CMSG == Ascii("CMSG")
    ensures META == Ascii("META") && LIVE == Ascii("LIVE")
  {}

  lemma RequestTags()
    ensures THRID == Ascii("THRID") && TPCSZ == Ascii("TPCSZ") && TPC == Ascii("TPC")
    ensures TPCPSZ == Ascii("TPCPSZ") && TPCP == Ascii("TPCP")
    ensures TXTSZ == Ascii("TXTSZ") && TXT == Ascii("TXT") && TKN == Ascii("TKN")
  {}

  lemma ReplyTags()
    ensures MSGCNT == Ascii("MSGCNT") && MSG == Ascii("MSG") && MSGEND == Ascii("MSGEND")
  {}

  lemma MetaTags()
    ensures MINTPCSZ == Ascii("MINTPCSZ") && MAXTPCSZ == Ascii("MAXTPCSZ")
    ensures MINMSGSZ == Ascii("MINMSGSZ") && MAXMSGSZ == Ascii("MAXMSGSZ")
  {}

  lemma MetaCountTags()
    ensures THRN == Ascii("THRN") && VERSZ == Ascii("VERSZ") && VER == Ascii("VER")
  {}

  lemma Version()
    ensures VERSION == Ascii("LeForum Server v0.1")
  {}

  lemma StatusWords()
    ensures StatusText(OK) == Ascii("OK") && StatusText(NFND) == Ascii("NFND")
    ensures StatusText(ISYN) == Ascii("ISYN") && StatusText(IDAT) == Ascii("IDAT")
    ensures StatusText(CLIB) == Ascii("CLIB") && StatusText(NSFD) == Ascii("NSFD")
    ensures StatusText(EXST) == Ascii("EXST") && StatusText(NPTR) == Ascii("NPTR")
    ensures NFND_TEXT == Ascii("NFND") && OK_TAG == Ascii("OK")
  {}

  /** A client can tell every status from every other. */
  lemma StatusTextsDiffer(a: Status, b: Status)
    ensures StatusText(a) == StatusText(b) <==> a == b
  {
    var x, y := StatusText(a), StatusText(b);
    assert |x| == |y| && |x| == 4 && x == y ==> x[0] == y[0] && x[1] == y[1];
  }

  // ----------------------------------------------------------------------- requests

  /** A number stands there in eight bytes, as far as the tag before it goes. */
  ghost predicate Announces(d: bytes, tag: bytes, n: u64) {
    Starts(d, tag + U64(n))
  }

  /** CTHR: the topic is everything behind the tag up to a NUL. */
  ghost predicate AsksToCreate(p: bytes, topic: bytes) {
    && |p| >= 20 && Starts(p, Ascii("CTHR"))
    && (exists size: u64 :: 3 <= size <= 64 && Announces(p[4..], Ascii("TPCSZ"), size))
    && Starts(p[17..], Ascii("TPC"))
    && topic == CStr(p[20..])
  }

  ghost predicate AsksToFind(p: bytes, part: bytes) {
    && |p| >= 22 && Starts(p, Ascii("FTHR"))
    && Starts(p[18..], Ascii("TPCP"))
    && exists size: u64 :: 3 <= size <= 64 && Announces(p[4..], Ascii("TPCPSZ"), size) && part == CStrN(p[22..], size)
  }

  /** A CTHR packet of sufficient length that announces a topic outside the bounds. */
  ghost predicate BadCreate(p: bytes) {
    && |p| >= 20 && Starts(p, Ascii("CTHR"))
    && exists size: u64 :: Announces(p[4..], Ascii("TPCSZ"), size) && !(3 <= size <= 64)
  }

  ghost predicate BadFind(p: bytes) {
    && |p| >= 4 && Starts(p, Ascii("FTHR"))
    && exists size: u64 :: Announces(p[4..], Ascii("TPCPSZ"), size) && !(3 <= size <= 64)
  }

  /** The token is whatever follows its tag behind the text. */
  ghost predicate Carries(d: bytes, size: u64, text: bytes, token: Option<bytes>) {
    && |d| >= 16 + size && 3 <= size <= 512
    && text == CStrN(d[16..], size) && |text| >= 3
    && token == if Starts(d[16 + size..], Ascii("TKN")) then Some(d[19 + size..]) else None
  }

  ghost predicate MeansBody(d: bytes, body: Body)
    requires |d| >= 16
  {
    match body
    case Text(text, token) =>
      && Starts(d[13..], Ascii("TXT"))
      && exists size: u64 :: Announces(d, Ascii("TXTSZ"), size) && Carries(d, size, text, token)
    case BadBody(IDAT) => exists size: u64 :: Announces(d, Ascii("TXTSZ"), size) && !(3 <= size <= 512)
    case BadBody(ISYN) =>
      || !Starts(d, Ascii("TXTSZ"))
      || (!Starts(d[13..], Ascii("TXT"))
          && exists size: u64 :: Announces(d, Ascii("TXTSZ"), size) && 3 <= size <= 512)
    case BadBody(_) => false
    case UndefinedBody =>
      && Starts(d[13..], Ascii("TXT"))
      && exists size: u64 :: Announces(d, Ascii("TXTSZ"), size) && 3 <= size <= 512
           && (|d| < 16 + size || |CStrN(d[16..], size)| < 3)
  }

  /** A packet that is understood, and how; everything else is answered with ISYN. */
  ghost predicate Means(p: bytes, r: Request) {
    match r
    case Get(id) => |p| >= 17 && Starts(p, Ascii("GTHR")) && Announces(p[4..], Ascii("THRID"), id)
    case Create(topic) => AsksToCreate(p, topic)
    case Find(part) => AsksToFind(p, part)
    case Post(id, body) =>
      && |p| >= 33 && Starts(p, Ascii("CMSG")) && Announces(p[4..], Ascii("THRID"), id)
      && MeansBody(p[17..], body)
    case Meta => Starts(p, Ascii("META"))
    case Live => Starts(p, Ascii("LIVE"))
    case Reject(IDAT) => BadCreate(p) || BadFind(p)
    case Reject(_) => false
    case UndefinedRequest => |p| < 18 && |p| >= 4 && Starts(p, Ascii("FTHR")) && Starts(p[4..], Ascii("TPCPSZ"))
  }

  lemma EatsWhatStarts(tag: bytes, d: bytes)
    ensures Eat(tag, d).Some? <==> Starts(d, tag)
    ensures Starts(d, tag) ==> Eat(tag, d) == Some(d[|tag|..])
  {}

  /** The number behind the tag is the one announced. */
  lemma AnnouncedIsRead(d: bytes, tag: bytes, n: u64)
    ensures Announces(d, tag, n) <==>
      Starts(d, tag) && |d| >= |tag| + 8 && ReadU64(d[|tag|..][..8]) == n
  {
    if Starts(d, tag) && |d| >= |tag| + 8 {
      var word := d[|tag|..][..8];
      assert d[..|tag| + 8] == d[..|tag|] + word;
      U64RoundTrip(n);
      FromLeThenLe(word);
      assert U64(ReadU64(word)) == word;
      if word == U64(n) {
        assert d[..|tag + U64(n)|] == tag + U64(n);
      }
      if Announces(d, tag, n) {
        assert (tag + U64(n))[|tag|..] == U64(n) && d[..|tag| + 8][|tag|..] == word;
      }
    }
  }

  /** Exactly one number stands behind a tag, if there is room for one. */
  lemma OneNumber(d: bytes, tag: bytes)
    ensures forall n: u64 :: Announces(d, tag, n) <==>
      Starts(d, tag) && |d| >= |tag| + 8 && ReadU64(d[|tag|..][..8]) == n
  {
    forall n: u64
      ensures Announces(d, tag, n) <==> Starts(d, tag) && |d| >= |tag| + 8 && ReadU64(d[|tag|..][..8]) == n
    {
      AnnouncedIsRead(d, tag, n);
    }
  }

  lemma GetGrammar(p: bytes, r: Request)
    requires Starts(p, GTHR)
    ensures ReadGet(p[4..]) == r && r != Reject(ISYN) <==> r.Get? && Means(p, r)
  {
    Commands();
    RequestTags();
    EatsWhatStarts(THRID, p[4..]);
    OneNumber(p[4..], THRID);
    hide Eat, Starts, Ascii, Announces, ReadU64;
  }

  lemma CreateGrammar(p: bytes, r: Request)
    requires Starts(p, CTHR)
    ensures ReadCreate(p[4..]) == r && r != Reject(ISYN)
       <==> (r.Create? && Means(p, r)) || (r == Reject(IDAT) && BadCreate(p))
  {
    var d := p[4..];
    Commands();
    RequestTags();
    EatsWhatStarts(TPCSZ, d);
    OneNumber(d, TPCSZ);
    if |d| >= 16 {
      EatsWhatStarts(TPC, d[13..]);
      assert d[5..][8..] == d[13..] == p[17..] && d[13..][3..] == p[20..];
      assert Starts(d, TPCSZ) ==> Announces(d, TPCSZ, ReadU64(d[5..][..8]));
    }
    hide Eat, Starts, Ascii, Announces, CStr, ReadU64;
  }

  lemma FindGrammar(p: bytes, r: Request)
    requires Starts(p, FTHR)
    ensures ReadFind(p[4..]) == r && r != Reject(ISYN)
       <==> ((r.Find? || r.UndefinedRequest?) && Means(p, r)) || (r == Reject(IDAT) && BadFind(p))
  {
    var d := p[4..];
    Commands();
    RequestTags();
    EatsWhatStarts(TPCPSZ, d);
    OneNumber(d, TPCPSZ);
    if |d| >= 14 {
      EatsWhatStarts(TPCP, d[14..]);
      assert d[6..][8..] == d[14..] == p[18..] && (|d| >= 18 ==> d[14..][4..] == p[22..]);
      assert Starts(d, TPCPSZ) ==> Announces(d, TPCPSZ, ReadU64(d[6..][..8]));
    }
    hide Eat, Starts, Ascii, Announces, CStrN, ReadU64;
  }

  /** The text field once its size is known to be within the bounds. */
  lemma TextGrammar(d: bytes, size: u64, text: bytes, token: Option<bytes>)
    requires |d| >= 16 && 3 <= size <= 512
    ensures |d| >= 16 + size && TextFits(CStrN(d[16..], size))
        && Text(CStrN(d[16..], size), Eat(TKN, d[16..][size..])) == Text(text, token)
       <==> Carries(d, size, text, token)
    ensures TextFits(CStrN(d[16..], size)) <==> |CStrN(d[16..], size)| >= 3
  {
    RequestTags();
    if |d| >= 16 + size {
      var rest := d[16 + size..];
      assert d[16..][size..] == rest;
      EatsWhatStarts(TKN, rest);
      assert Starts(rest, TKN) ==> rest[3..] == d[19 + size..];
    }
  }

  lemma BodyGrammar(d: bytes, body: Body)
    requires |d| >= 16
    ensures ReadBody(d) == body <==> MeansBody(d, body)
  {
    RequestTags();
    EatsWhatStarts(TXTSZ, d);
    EatsWhatStarts(TXT, d[13..]);
    OneNumber(d, TXTSZ);
    var size := ReadU64(d[5..][..8]);
    assert d[5..][8..] == d[13..] && d[13..][3..] == d[16..];
    assert Starts(d, TXTSZ) ==> Announces(d, TXTSZ, size);
    hide Eat, Starts, Ascii, Announces, CStrN, ReadU64, Carries, TextFits;
    if 3 <= size <= 512 {
      forall text, token {
        TextGrammar(d, size, text, token);
      }
    }
  }

  lemma PostGrammar(p: bytes, r: Request)
    requires Starts(p, CMSG)
    ensures ReadPost(p[4..]) == r && r != Reject(ISYN) <==> r.Post? && Means(p, r)
  {
    var d := p[4..];
    Commands();
    RequestTags();
    EatsWhatStarts(THRID, d);
    OneNumber(d, THRID);
    if |p| >= 33 {
      assert d[5..][8..] == p[17..];
      if r.Post? { BodyGrammar(p[17..], r.body); }
    }
    hide Eat, Starts, Ascii, Announces, ReadBody, MeansBody, ReadU64;
  }

  /** No packet starts with two commands. */
  lemma OneCommand(p: bytes)
    ensures Starts(p, GTHR) ==> !Starts(p, CTHR) && !Starts(p, FTHR) && !Starts(p, CMSG)
    ensures Starts(p, CTHR) ==> !Starts(p, FTHR) && !Starts(p, CMSG)
    ensures Starts(p, FTHR) ==> !Starts(p, CMSG)
    ensures Starts(p, META) ==> !Starts(p, GTHR) && !Starts(p, CTHR) && !Starts(p, FTHR) && !Starts(p, CMSG)
    ensures Starts(p, LIVE) ==> !Starts(p, GTHR) && !Starts(p, CTHR) && !Starts(p, FTHR) && !Starts(p, CMSG)
    ensures Starts(p, META) ==> !Starts(p, LIVE)
  {
    if |p| >= 4 {
      assert p[..4][0] == p[0] && p[..4][1] == p[1];
    }
  }

  lemma BadBodyStatus(p: bytes, id: u64, status: Status)
    requires Means(p, Post(id, BadBody(status)))
    ensures status in {ISYN, IDAT}
  {
    assert MeansBody(p[17..], BadBody(status));
  }

  /** Every meaning names its command. */
  lemma MeansNamesCommand(p: bytes, r: Request)
    requires Means(p, r)
    ensures match r
      case Get(_) => Starts(p, GTHR)
      case Create(_) => Starts(p, CTHR)
      case Find(_) => Starts(p, FTHR)
      case Post(_, _) => Starts(p, CMSG)
      case Meta => Starts(p, META)
      case Live => Starts(p, LIVE)
      case Reject(_) => (BadCreate(p) && Starts(p, CTHR)) || (BadFind(p) && Starts(p, FTHR))
      case UndefinedRequest => Starts(p, FTHR)
  {
    Commands();
    hide Starts, Ascii, Announces;
  }

  lemma WhoReads(p: bytes)
    ensures ReadRequest(p) ==
      if Starts(p, GTHR) then ReadGet(p[4..])
      else if Starts(p, CTHR) then ReadCreate(p[4..])
      else if Starts(p, FTHR) then ReadFind(p[4..])
      else if Starts(p, CMSG) then ReadPost(p[4..])
      else if Starts(p, META) then Meta
      else if Starts(p, LIVE) then Live
      else Reject(ISYN)
  {
    hide ReadGet, ReadCreate, ReadFind, ReadPost;
  }

  /** The server understands exactly the documented packets, and each in exactly one way. */
  lemma UnderstandsExactly(p: bytes, r: Request)
    ensures ReadRequest(p) == r && r != Reject(ISYN) <==> Means(p, r)
  {
    WhoReads(p);
    OneCommand(p);
    if Means(p, r) { MeansNamesCommand(p, r); }
    if Starts(p, GTHR) { GetGrammar(p, r); }
    if Starts(p, CTHR) { CreateGrammar(p, r); }
    if Starts(p, FTHR) { FindGrammar(p, r); }
    if Starts(p, CMSG) { PostGrammar(p, r); }
    Commands();
    BadCreateNamesCommand(p);
    hide Starts, Ascii, ReadRequest, ReadGet, ReadCreate, ReadFind, ReadPost, BadCreate, BadFind;
    hide MeansBody, AsksToCreate, AsksToFind;
  }

  lemma BadCreateNamesCommand(p: bytes)
    ensures BadCreate(p) ==> Starts(p, CTHR)
    ensures BadFind(p) ==> Starts(p, FTHR)
  {
    Commands();
  }

  /** Anything else, and only that, is a syntax error. */
  lemma RestIsSyntaxError(p: bytes)
    ensures ReadRequest(p) == Reject(ISYN) <==> forall r :: !Means(p, r)
  {
    UnderstandsExactly(p, ReadRequest(p));
    forall r | Means(p, r) ensures ReadRequest(p) != Reject(ISYN) {
      UnderstandsExactly(p, r);
    }
  }
}
