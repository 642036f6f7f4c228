/** Known answers of the key schedule, the cipher and the MAC: the key and block of appendix C.1 of
    FIPS 197, and the key and the first two messages of section 4 of RFC 4493, which
    src/testinternals.cc also uses. The computations are staged round by round. */
module AesKnown {
  import opened SBoxes
  import opened AesSpec
  import opened Gf128
  import opened CmacSpec
  import opened AesRounds

  // The key of appendix C.1 of FIPS 197.

  lemma FipsSchedule1()
    ensures NextKey(0x000102030405060708090a0b0c0d0e0f, 0x01, 0xd6aa74fdd2af72fadaa678f1d6ab76fe)
    ensures NextKey(0xd6aa74fdd2af72fadaa678f1d6ab76fe, 0x02, 0xb692cf0b643dbdf1be9bc5006830b3fe)
    ensures NextKey(0xb692cf0b643dbdf1be9bc5006830b3fe, 0x04, 0xb6ff744ed2c2c9bf6c590cbf0469bf41)
  {
  }

  lemma FipsSchedule2()
    ensures NextKey(0xb6ff744ed2c2c9bf6c590cbf0469bf41, 0x08, 0x47f7f7bc95353e03f96c32bcfd058dfd)
    ensures NextKey(0x47f7f7bc95353e03f96c32bcfd058dfd, 0x10, 0x3caaa3e8a99f9deb50f3af57adf622aa)
    ensures NextKey(0x3caaa3e8a99f9deb50f3af57adf622aa, 0x20, 0x5e390f7df7a69296a7553dc10aa31f6b)
  {
  }

  lemma FipsSchedule3()
    ensures NextKey(0x5e390f7df7a69296a7553dc10aa31f6b, 0x40, 0x14f9701ae35fe28c440adf4d4ea9c026)
    ensures NextKey(0x14f9701ae35fe28c440adf4d4ea9c026, 0x80, 0x47438735a41c65b9e016baf4aebf7ad2)
  {
  }

  lemma FipsSchedule4()
    ensures NextKey(0x47438735a41c65b9e016baf4aebf7ad2, 0x1b, 0x549932d1f08557681093ed9cbe2c974e)
    ensures NextKey(0x549932d1f08557681093ed9cbe2c974e, 0x36, 0x13111d7fe3944a17f307a78b4d2b30c5)
  {
  }

  lemma FipsKeys(key: Block)
    requires Reads(key, 0x000102030405060708090a0b0c0d0e0f)
    ensures KeyIs(key, 0, 0x000102030405060708090a0b0c0d0e0f)
    ensures KeyIs(key, 1, 0xd6aa74fdd2af72fadaa678f1d6ab76fe)
    ensures KeyIs(key, 2, 0xb692cf0b643dbdf1be9bc5006830b3fe)
    ensures KeyIs(key, 3, 0xb6ff744ed2c2c9bf6c590cbf0469bf41)
    ensures KeyIs(key, 4, 0x47f7f7bc95353e03f96c32bcfd058dfd)
    ensures KeyIs(key, 5, 0x3caaa3e8a99f9deb50f3af57adf622aa)
    ensures KeyIs(key, 6, 0x5e390f7df7a69296a7553dc10aa31f6b)
    ensures KeyIs(key, 7, 0x14f9701ae35fe28c440adf4d4ea9c026)
    ensures KeyIs(key, 8, 0x47438735a41c65b9e016baf4aebf7ad2)
    ensures KeyIs(key, 9, 0x549932d1f08557681093ed9cbe2c974e)
    ensures KeyIs(key, 10, 0x13111d7fe3944a17f307a78b4d2b30c5)
  {
    hide *;
    PowersOfX();
    FipsSchedule1();
    FipsSchedule2();
    FipsSchedule3();
    FipsSchedule4();
    FirstKey(key, 0x000102030405060708090a0b0c0d0e0f);
    KeyStep(key, 1, 0x000102030405060708090a0b0c0d0e0f, 0x01, 0xd6aa74fdd2af72fadaa678f1d6ab76fe);
    KeyStep(key, 2, 0xd6aa74fdd2af72fadaa678f1d6ab76fe, 0x02, 0xb692cf0b643dbdf1be9bc5006830b3fe);
    KeyStep(key, 3, 0xb692cf0b643dbdf1be9bc5006830b3fe, 0x04, 0xb6ff744ed2c2c9bf6c590cbf0469bf41);
    KeyStep(key, 4, 0xb6ff744ed2c2c9bf6c590cbf0469bf41, 0x08, 0x47f7f7bc95353e03f96c32bcfd058dfd);
    KeyStep(key, 5, 0x47f7f7bc95353e03f96c32bcfd058dfd, 0x10, 0x3caaa3e8a99f9deb50f3af57adf622aa);
    KeyStep(key, 6, 0x3caaa3e8a99f9deb50f3af57adf622aa, 0x20, 0x5e390f7df7a69296a7553dc10aa31f6b);
    KeyStep(key, 7, 0x5e390f7df7a69296a7553dc10aa31f6b, 0x40, 0x14f9701ae35fe28c440adf4d4ea9c026);
    KeyStep(key, 8, 0x14f9701ae35fe28c440adf4d4ea9c026, 0x80, 0x47438735a41c65b9e016baf4aebf7ad2);
    KeyStep(key, 9, 0x47438735a41c65b9e016baf4aebf7ad2, 0x1b, 0x549932d1f08557681093ed9cbe2c974e);
    KeyStep(key, 10, 0x549932d1f08557681093ed9cbe2c974e, 0x36, 0x13111d7fe3944a17f307a78b4d2b30c5);
  }

  // The block of appendix C.1 of FIPS 197.

  lemma FipsBlock1()
    ensures Substituted(0x00102030405060708090a0b0c0d0e0f0, 0x6353e08c0960e104cd70b751bacad0e7)
    ensures Mixed(0x6353e08c0960e104cd70b751bacad0e7, 0xd6aa74fdd2af72fadaa678f1d6ab76fe,
                  0x89d810e8855ace682d1843d8cb128fe4)
  {
  }

  lemma FipsBlock2()
    ensures Substituted(0x89d810e8855ace682d1843d8cb128fe4, 0xa7be1a6997ad739bd8c9ca451f618b61)
    ensures Mixed(0xa7be1a6997ad739bd8c9ca451f618b61, 0xb692cf0b643dbdf1be9bc5006830b3fe,
                  0x4915598f55e5d7a0daca94fa1f0a63f7)
  {
  }

  lemma FipsBlock3()
    ensures Substituted(0x4915598f55e5d7a0daca94fa1f0a63f7, 0x3bd92268fc74fb735767cbe0c0590e2d)
    ensures Mixed(0x3bd92268fc74fb735767cbe0c0590e2d, 0xb6ff744ed2c2c9bf6c590cbf0469bf41,
                  0xfa636a2825b339c940668a3157244d17)
  {
  }

  lemma FipsBlock4()
    ensures Substituted(0xfa636a2825b339c940668a3157244d17, 0x2d6d7ef03f33e334093602dd5bfb12c7)
    ensures Mixed(0x2d6d7ef03f33e334093602dd5bfb12c7, 0x47f7f7bc95353e03f96c32bcfd058dfd,
                  0x247240236966b3fa6ed2753288425b6c)
  {
  }

  lemma FipsBlock5()
    ensures Substituted(0x247240236966b3fa6ed2753288425b6c, 0x36339d50f9b539269f2c092dc4406d23)
    ensures Mixed(0x36339d50f9b539269f2c092dc4406d23, 0x3caaa3e8a99f9deb50f3af57adf622aa,
                  0xc81677bc9b7ac93b25027992b0261996)
  {
  }

  lemma FipsBlock6()
    ensures Substituted(0xc81677bc9b7ac93b25027992b0261996, 0xe8dab6901477d4653ff7f5e2e747dd4f)
    ensures Mixed(0xe8dab6901477d4653ff7f5e2e747dd4f, 0x5e390f7df7a69296a7553dc10aa31f6b,
                  0xc62fe109f75eedc3cc79395d84f9cf5d)
  {
  }

  lemma FipsBlock7()
    ensures Substituted(0xc62fe109f75eedc3cc79395d84f9cf5d, 0xb458124c68b68a014b99f82e5f15554c)
    ensures Mixed(0xb458124c68b68a014b99f82e5f15554c, 0x14f9701ae35fe28c440adf4d4ea9c026,
                  0xd1876c0f79c4300ab45594add66ff41f)
  {
  }

  lemma FipsBlock8()
    ensures Substituted(0xd1876c0f79c4300ab45594add66ff41f, 0x3e1c22c0b6fcbf768da85067f6170495)
    ensures Mixed(0x3e1c22c0b6fcbf768da85067f6170495, 0x47438735a41c65b9e016baf4aebf7ad2,
                  0xfde3bad205e5d0d73547964ef1fe37f1)
  {
  }

  lemma FipsBlock9()
    ensures Substituted(0xfde3bad205e5d0d73547964ef1fe37f1, 0x54d990a16ba09ab596bbf40ea111702f)
    ensures Mixed(0x54d990a16ba09ab596bbf40ea111702f, 0x549932d1f08557681093ed9cbe2c974e,
                  0xbd6e7c3df2b5779e0b61216e8b10b689)
  {
  }

  lemma FipsBlock10()
    ensures Substituted(0xbd6e7c3df2b5779e0b61216e8b10b689, 0x7ad5fda789ef4e272bca100b3d9ff59f)
    ensures Added(0x7ad5fda789ef4e272bca100b3d9ff59f, 0x13111d7fe3944a17f307a78b4d2b30c5,
                  0x69c4e0d86a7b0430d8cdb78070b4c55a)
    ensures Added(0x00112233445566778899aabbccddeeff, 0x000102030405060708090a0b0c0d0e0f,
                  0x00102030405060708090a0b0c0d0e0f0)
  {
  }

  lemma FipsBlock(key: Block, p: Block)
    requires Reads(key, 0x000102030405060708090a0b0c0d0e0f)
    requires Reads(p, 0x00112233445566778899aabbccddeeff)
    ensures Encrypts(key, p, 0x69c4e0d86a7b0430d8cdb78070b4c55a)
  {
    hide *;
    FipsKeys(key);
    FipsBlock10();
    Start(key, p, 0x00112233445566778899aabbccddeeff, 0x000102030405060708090a0b0c0d0e0f,
          0x00102030405060708090a0b0c0d0e0f0);
    FipsBlock1();
    Step(key, p, 1, 0x00102030405060708090a0b0c0d0e0f0, 0x6353e08c0960e104cd70b751bacad0e7,
         0xd6aa74fdd2af72fadaa678f1d6ab76fe, 0x89d810e8855ace682d1843d8cb128fe4);
    FipsBlock2();
    Step(key, p, 2, 0x89d810e8855ace682d1843d8cb128fe4, 0xa7be1a6997ad739bd8c9ca451f618b61,
         0xb692cf0b643dbdf1be9bc5006830b3fe, 0x4915598f55e5d7a0daca94fa1f0a63f7);
    FipsBlock3();
    Step(key, p, 3, 0x4915598f55e5d7a0daca94fa1f0a63f7, 0x3bd92268fc74fb735767cbe0c0590e2d,
         0xb6ff744ed2c2c9bf6c590cbf0469bf41, 0xfa636a2825b339c940668a3157244d17);
    FipsBlock4();
    Step(key, p, 4, 0xfa636a2825b339c940668a3157244d17, 0x2d6d7ef03f33e334093602dd5bfb12c7,
         0x47f7f7bc95353e03f96c32bcfd058dfd, 0x247240236966b3fa6ed2753288425b6c);
    FipsBlock5();
    Step(key, p, 5, 0x247240236966b3fa6ed2753288425b6c, 0x36339d50f9b539269f2c092dc4406d23,
         0x3caaa3e8a99f9deb50f3af57adf622aa, 0xc81677bc9b7ac93b25027992b0261996);
    FipsBlock6();
    Step(key, p, 6, 0xc81677bc9b7ac93b25027992b0261996, 0xe8dab6901477d4653ff7f5e2e747dd4f,
         0x5e390f7df7a69296a7553dc10aa31f6b, 0xc62fe109f75eedc3cc79395d84f9cf5d);
    FipsBlock7();
    Step(key, p, 7, 0xc62fe109f75eedc3cc79395d84f9cf5d, 0xb458124c68b68a014b99f82e5f15554c,
         0x14f9701ae35fe28c440adf4d4ea9c026, 0xd1876c0f79c4300ab45594add66ff41f);
    FipsBlock8();
    Step(key, p, 8, 0xd1876c0f79c4300ab45594add66ff41f, 0x3e1c22c0b6fcbf768da85067f6170495,
         0x47438735a41c65b9e016baf4aebf7ad2, 0xfde3bad205e5d0d73547964ef1fe37f1);
    FipsBlock9();
    Step(key, p, 9, 0xfde3bad205e5d0d73547964ef1fe37f1, 0x54d990a16ba09ab596bbf40ea111702f,
         0x549932d1f08557681093ed9cbe2c974e, 0xbd6e7c3df2b5779e0b61216e8b10b689);
    Finish(key, p, 9, 0xbd6e7c3df2b5779e0b61216e8b10b689, 0x7ad5fda789ef4e272bca100b3d9ff59f,
           0x13111d7fe3944a17f307a78b4d2b30c5, 0x69c4e0d86a7b0430d8cdb78070b4c55a);
  }

  // The key of section 4 of RFC 4493.

  lemma RfcSchedule1()
    ensures NextKey(0x2b7e151628aed2a6abf7158809cf4f3c, 0x01, 0xa0fafe1788542cb123a339392a6c7605)
    ensures NextKey(0xa0fafe1788542cb123a339392a6c7605, 0x02, 0xf2c295f27a96b9435935807a7359f67f)
    ensures NextKey(0xf2c295f27a96b9435935807a7359f67f, 0x04, 0x3d80477d4716fe3e1e237e446d7a883b)
  {
  }

  lemma RfcSchedule2()
    ensures NextKey(0x3d80477d4716fe3e1e237e446d7a883b, 0x08, 0xef44a541a8525b7fb671253bdb0bad00)
    ensures NextKey(0xef44a541a8525b7fb671253bdb0bad00, 0x10, 0xd4d1c6f87c839d87caf2b8bc11f915bc)
    ensures NextKey(0xd4d1c6f87c839d87caf2b8bc11f915bc, 0x20, 0x6d88a37a110b3efddbf98641ca0093fd)
  {
  }

  lemma RfcSchedule3()
    ensures NextKey(0x6d88a37a110b3efddbf98641ca0093fd, 0x40, 0x4e54f70e5f5fc9f384a64fb24ea6dc4f)
    ensures NextKey(0x4e54f70e5f5fc9f384a64fb24ea6dc4f, 0x80, 0xead27321b58dbad2312bf5607f8d292f)
  {
  }

  lemma RfcSchedule4()
    ensures NextKey(0xead27321b58dbad2312bf5607f8d292f, 0x1b, 0xac7766f319fadc2128d12941575c006e)
    ensures NextKey(0xac7766f319fadc2128d12941575c006e, 0x36, 0xd014f9a8c9ee2589e13f0cc8b6630ca6)
  {
  }

  lemma RfcKeys(key: Block)
    requires Reads(key, 0x2b7e151628aed2a6abf7158809cf4f3c)
    ensures KeyIs(key, 0, 0x2b7e151628aed2a6abf7158809cf4f3c)
    ensures KeyIs(key, 1, 0xa0fafe1788542cb123a339392a6c7605)
    ensures KeyIs(key, 2, 0xf2c295f27a96b9435935807a7359f67f)
    ensures KeyIs(key, 3, 0x3d80477d4716fe3e1e237e446d7a883b)
    ensures KeyIs(key, 4, 0xef44a541a8525b7fb671253bdb0bad00)
    ensures KeyIs(key, 5, 0xd4d1c6f87c839d87caf2b8bc11f915bc)
    ensures KeyIs(key, 6, 0x6d88a37a110b3efddbf98641ca0093fd)
    ensures KeyIs(key, 7, 0x4e54f70e5f5fc9f384a64fb24ea6dc4f)
    ensures KeyIs(key, 8, 0xead27321b58dbad2312bf5607f8d292f)
    ensures KeyIs(key, 9, 0xac7766f319fadc2128d12941575c006e)
    ensures KeyIs(key, 10, 0xd014f9a8c9ee2589e13f0cc8b6630ca6)
  {
    hide *;
    PowersOfX();
    RfcSchedule1();
    RfcSchedule2();
    RfcSchedule3();
    RfcSchedule4();
    FirstKey(key, 0x2b7e151628aed2a6abf7158809cf4f3c);
    KeyStep(key, 1, 0x2b7e151628aed2a6abf7158809cf4f3c, 0x01, 0xa0fafe1788542cb123a339392a6c7605);
    KeyStep(key, 2, 0xa0fafe1788542cb123a339392a6c7605, 0x02, 0xf2c295f27a96b9435935807a7359f67f);
    KeyStep(key, 3, 0xf2c295f27a96b9435935807a7359f67f, 0x04, 0x3d80477d4716fe3e1e237e446d7a883b);
    KeyStep(key, 4, 0x3d80477d4716fe3e1e237e446d7a883b, 0x08, 0xef44a541a8525b7fb671253bdb0bad00);
    KeyStep(key, 5, 0xef44a541a8525b7fb671253bdb0bad00, 0x10, 0xd4d1c6f87c839d87caf2b8bc11f915bc);
    KeyStep(key, 6, 0xd4d1c6f87c839d87caf2b8bc11f915bc, 0x20, 0x6d88a37a110b3efddbf98641ca0093fd);
    KeyStep(key, 7, 0x6d88a37a110b3efddbf98641ca0093fd, 0x40, 0x4e54f70e5f5fc9f384a64fb24ea6dc4f);
    KeyStep(key, 8, 0x4e54f70e5f5fc9f384a64fb24ea6dc4f, 0x80, 0xead27321b58dbad2312bf5607f8d292f);
    KeyStep(key, 9, 0xead27321b58dbad2312bf5607f8d292f, 0x1b, 0xac7766f319fadc2128d12941575c006e);
    KeyStep(key, 10, 0xac7766f319fadc2128d12941575c006e, 0x36, 0xd014f9a8c9ee2589e13f0cc8b6630ca6);
  }

  // The encrypted zero block.

  lemma RfcZeros1()
    ensures Substituted(0x2b7e151628aed2a6abf7158809cf4f3c, 0xf1e459eb34688447628a592401f3b5c4)
    ensures Mixed(0xf1e459eb34688447628a592401f3b5c4, 0xa0fafe1788542cb123a339392a6c7605,
                  0xdcd87f6f9b60aa8f1f010f045790a2d3)
  {
  }

  lemma RfcZeros2()
    ensures Substituted(0xdcd87f6f9b60aa8f1f010f045790a2d3, 0x86d07666147c3aa8c060d2735b61acf2)
    ensures Mixed(0x86d07666147c3aa8c060d2735b61acf2, 0xf2c295f27a96b9435935807a7359f67f,
                  0x9e038509449c4672c32b0a7538dd82a0)
  {
  }

  lemma RfcZeros3()
    ensures Substituted(0x9e038509449c4672c32b0a7538dd82a0, 0x0bde67e01bf113012ec19740077b5a9d)
    ensures Mixed(0x0bde67e01bf113012ec19740077b5a9d, 0x3d80477d4716fe3e1e237e446d7a883b,
                  0xd56567026bc031f3cd7664e029f8fc32)
  {
  }

  lemma RfcZeros4()
    ensures Substituted(0xd56567026bc031f3cd7664e029f8fc32, 0x03ba43237f38b077bd41850da54dc7e1)
    ensures Mixed(0x03ba43237f38b077bd41850da54dc7e1, 0xef44a541a8525b7fb671253bdb0bad00,
                  0x5ccefffbd9e1fe989cd7df397b87e8a7)
  {
  }

  lemma RfcZeros5()
    ensures Substituted(0x5ccefffbd9e1fe989cd7df397b87e8a7, 0x4af89e5c350e9b0fde171646218bbb12)
    ensures Mixed(0x4af89e5c350e9b0fde171646218bbb12, 0xd4d1c6f87c839d87caf2b8bc11f915bc,
                  0x9195b7f890139a53047e97487c11e4cb)
  {
  }

  lemma RfcZeros6()
    ensures Substituted(0x9195b7f890139a53047e97487c11e4cb, 0x817d881f60f36941f282a9ed102ab852)
    ensures Mixed(0x817d881f60f36941f282a9ed102ab852, 0x6d88a37a110b3efddbf98641ca0093fd,
                  0x646f7529f76cbc45fd1993a67ec534fb)
  {
  }

  lemma RfcZeros7()
    ensures Substituted(0x646f7529f76cbc45fd1993a67ec534fb, 0x4350dc0f68d418a554a69d6ef3a86524)
    ensures Mixed(0x4350dc0f68d418a554a69d6ef3a86524, 0x4e54f70e5f5fc9f384a64fb24ea6dc4f,
                  0xebc756595509b1d62e772ea9119521c4)
  {
  }

  lemma RfcZeros8()
    ensures Substituted(0xebc756595509b1d62e772ea9119521c4, 0xe901311cfcf5fdcb312ab1f682c6c8d3)
    ensures Mixed(0xe901311cfcf5fdcb312ab1f682c6c8d3, 0xead27321b58dbad2312bf5607f8d292f,
                  0x0d76dd09645714486a70965f2a088801)
  {
  }

  lemma RfcZeros9()
    ensures Substituted(0x0d76dd09645714486a70965f2a088801, 0xd75b907c4351c4010230c152e538facf)
    ensures Mixed(0xd75b907c4351c4010230c152e538facf, 0xac7766f319fadc2128d12941575c006e,
                  0x18c155a2a94d5e73efb97412fb13781d)
  {
  }

  lemma RfcZeros10()
    ensures Substituted(0x18c155a2a94d5e73efb97412fb13781d, 0xade392a4d356bc3adf7dfc8f0f7858c9)
    ensures Added(0xade392a4d356bc3adf7dfc8f0f7858c9, 0xd014f9a8c9ee2589e13f0cc8b6630ca6,
                  0x7df76b0c1ab899b33e42f047b91b546f)
    ensures Added(0x00000000000000000000000000000000, 0x2b7e151628aed2a6abf7158809cf4f3c,
                  0x2b7e151628aed2a6abf7158809cf4f3c)
  {
  }

  lemma RfcZeros(key: Block, p: Block)
    requires Reads(key, 0x2b7e151628aed2a6abf7158809cf4f3c)
    requires Reads(p, 0x00000000000000000000000000000000)
    ensures Encrypts(key, p, 0x7df76b0c1ab899b33e42f047b91b546f)
  {
    hide *;
    RfcKeys(key);
    RfcZeros10();
    Start(key, p, 0x00000000000000000000000000000000, 0x2b7e151628aed2a6abf7158809cf4f3c,
          0x2b7e151628aed2a6abf7158809cf4f3c);
    RfcZeros1();
    Step(key, p, 1, 0x2b7e151628aed2a6abf7158809cf4f3c, 0xf1e459eb34688447628a592401f3b5c4,
         0xa0fafe1788542cb123a339392a6c7605, 0xdcd87f6f9b60aa8f1f010f045790a2d3);
    RfcZeros2();
    Step(key, p, 2, 0xdcd87f6f9b60aa8f1f010f045790a2d3, 0x86d07666147c3aa8c060d2735b61acf2,
         0xf2c295f27a96b9435935807a7359f67f, 0x9e038509449c4672c32b0a7538dd82a0);
    RfcZeros3();
    Step(key, p, 3, 0x9e038509449c4672c32b0a7538dd82a0, 0x0bde67e01bf113012ec19740077b5a9d,
         0x3d80477d4716fe3e1e237e446d7a883b, 0xd56567026bc031f3cd7664e029f8fc32);
    RfcZeros4();
    Step(key, p, 4, 0xd56567026bc031f3cd7664e029f8fc32, 0x03ba43237f38b077bd41850da54dc7e1,
         0xef44a541a8525b7fb671253bdb0bad00, 0x5ccefffbd9e1fe989cd7df397b87e8a7);
    RfcZeros5();
    Step(key, p, 5, 0x5ccefffbd9e1fe989cd7df397b87e8a7, 0x4af89e5c350e9b0fde171646218bbb12,
         0xd4d1c6f87c839d87caf2b8bc11f915bc, 0x9195b7f890139a53047e97487c11e4cb);
    RfcZeros6();
    Step(key, p, 6, 0x9195b7f890139a53047e97487c11e4cb, 0x817d881f60f36941f282a9ed102ab852,
         0x6d88a37a110b3efddbf98641ca0093fd, 0x646f7529f76cbc45fd1993a67ec534fb);
    RfcZeros7();
    Step(key, p, 7, 0x646f7529f76cbc45fd1993a67ec534fb, 0x4350dc0f68d418a554a69d6ef3a86524,
         0x4e54f70e5f5fc9f384a64fb24ea6dc4f, 0xebc756595509b1d62e772ea9119521c4);
    RfcZeros8();
    Step(key, p, 8, 0xebc756595509b1d62e772ea9119521c4, 0xe901311cfcf5fdcb312ab1f682c6c8d3,
         0xead27321b58dbad2312bf5607f8d292f, 0x0d76dd09645714486a70965f2a088801);
    RfcZeros9();
    Step(key, p, 9, 0x0d76dd09645714486a70965f2a088801, 0xd75b907c4351c4010230c152e538facf,
         0xac7766f319fadc2128d12941575c006e, 0x18c155a2a94d5e73efb97412fb13781d);
    Finish(key, p, 9, 0x18c155a2a94d5e73efb97412fb13781d, 0xade392a4d356bc3adf7dfc8f0f7858c9,
           0xd014f9a8c9ee2589e13f0cc8b6630ca6, 0x7df76b0c1ab899b33e42f047b91b546f);
  }

  // The last block of the empty message.

  lemma RfcEmpty1()
    ensures Substituted(0x5ca3b926424cb46a52fcd496eda21e07, 0x4a2948c52cb072f7003a5602550a8d90)
    ensures Mixed(0x4a2948c52cb072f7003a5602550a8d90, 0xa0fafe1788542cb123a339392a6c7605,
                  0xc2ff59399e6256f2392fa95183318346)
  {
  }

  lemma RfcEmpty2()
    ensures Substituted(0xc2ff59399e6256f2392fa95183318346, 0x25aad35a0b15ec1212c7cb89ec16b1d1)
    ensures Mixed(0x25aad35a0b15ec1212c7cb89ec16b1d1, 0xf2c295f27a96b9435935807a7359f67f,
                  0xd49c4950ad8a52836d7d5849ea801d4e)
  {
  }

  lemma RfcEmpty3()
    ensures Substituted(0xd49c4950ad8a52836d7d5849ea801d4e, 0x487e6a2f95ffa4533ccd3bec87de003b)
    ensures Mixed(0x487e6a2f95ffa4533ccd3bec87de003b, 0x3d80477d4716fe3e1e237e446d7a883b,
                  0x6aa5d4ef9bc23267fd3fd6353a619c01)
  {
  }

  lemma RfcEmpty4()
    ensures Substituted(0x6aa5d4ef9bc23267fd3fd6353a619c01, 0x0225f67c1475dedf54ef488580062396)
    ensures Mixed(0x0225f67c1475dedf54ef488580062396, 0xef44a541a8525b7fb671253bdb0bad00,
                  0x0e71f16c1e0ae74df9bd9a717f74cc89)
  {
  }

  lemma RfcEmpty5()
    ensures Substituted(0x0e71f16c1e0ae74df9bd9a717f74cc89, 0xab67b8a7727a4b509992a1e3d2a394a3)
    ensures Mixed(0xab67b8a7727a4b509992a1e3d2a394a3, 0xd4d1c6f87c839d87caf2b8bc11f915bc,
                  0x2fc093940d88f3800c4fd4e26772a9bb)
  {
  }

  lemma RfcEmpty6()
    ensures Substituted(0x2fc093940d88f3800c4fd4e26772a9bb, 0x15c448ead784d322fe40dccd85ba0d98)
    ensures Mixed(0x15c448ead784d322fe40dccd85ba0d98, 0x6d88a37a110b3efddbf98641ca0093fd,
                  0xb23cc706c283b68ced35d7459b6505f5)
  {
  }

  lemma RfcEmpty7()
    ensures Substituted(0xb23cc706c283b68ced35d7459b6505f5, 0x37ec0ee625966b6f554dc66414eb4e6e)
    ensures Mixed(0x37ec0ee625966b6f554dc66414eb4e6e, 0x4e54f70e5f5fc9f384a64fb24ea6dc4f,
                  0xe7540162b09f1dbf5b5c6c0e60c30d0a)
  {
  }

  lemma RfcEmpty8()
    ensures Substituted(0xe7540162b09f1dbf5b5c6c0e60c30d0a, 0x94db5067e74ad7aa392e7c08d020a4ab)
    ensures Mixed(0x94db5067e74ad7aa392e7c08d020a4ab, 0xead27321b58dbad2312bf5607f8d292f,
                  0x987c35c3c336473245c20269ab416c8d)
  {
  }

  lemma RfcEmpty9()
    ensures Substituted(0x987c35c3c336473245c20269ab416c8d, 0x4605775d2e25502e6e8396236210a0f9)
    ensures Mixed(0x4605775d2e25502e6e8396236210a0f9, 0xac7766f319fadc2128d12941575c006e,
                  0x05ff2cf15440057adf2096a0fa1c3991)
  {
  }

  lemma RfcEmpty10()
    ensures Substituted(0x05ff2cf15440057adf2096a0fa1c3991, 0x6b09908120b712a19e9c71da2d166be0)
    ensures Added(0x6b09908120b712a19e9c71da2d166be0, 0xd014f9a8c9ee2589e13f0cc8b6630ca6,
                  0xbb1d6929e95937287fa37d129b756746)
    ensures Added(0x77ddac306ae266ccf90bc11ee46d513b, 0x2b7e151628aed2a6abf7158809cf4f3c,
                  0x5ca3b926424cb46a52fcd496eda21e07)
  {
  }

  lemma RfcEmpty(key: Block, p: Block)
    requires Reads(key, 0x2b7e151628aed2a6abf7158809cf4f3c)
    requires Reads(p, 0x77ddac306ae266ccf90bc11ee46d513b)
    ensures Encrypts(key, p, 0xbb1d6929e95937287fa37d129b756746)
  {
    hide *;
    RfcKeys(key);
    RfcEmpty10();
    Start(key, p, 0x77ddac306ae266ccf90bc11ee46d513b, 0x2b7e151628aed2a6abf7158809cf4f3c,
          0x5ca3b926424cb46a52fcd496eda21e07);
    RfcEmpty1();
    Step(key, p, 1, 0x5ca3b926424cb46a52fcd496eda21e07, 0x4a2948c52cb072f7003a5602550a8d90,
         0xa0fafe1788542cb123a339392a6c7605, 0xc2ff59399e6256f2392fa95183318346);
    RfcEmpty2();
    Step(key, p, 2, 0xc2ff59399e6256f2392fa95183318346, 0x25aad35a0b15ec1212c7cb89ec16b1d1,
         0xf2c295f27a96b9435935807a7359f67f, 0xd49c4950ad8a52836d7d5849ea801d4e);
    RfcEmpty3();
    Step(key, p, 3, 0xd49c4950ad8a52836d7d5849ea801d4e, 0x487e6a2f95ffa4533ccd3bec87de003b,
         0x3d80477d4716fe3e1e237e446d7a883b, 0x6aa5d4ef9bc23267fd3fd6353a619c01);
    RfcEmpty4();
    Step(key, p, 4, 0x6aa5d4ef9bc23267fd3fd6353a619c01, 0x0225f67c1475dedf54ef488580062396,
         0xef44a541a8525b7fb671253bdb0bad00, 0x0e71f16c1e0ae74df9bd9a717f74cc89);
    RfcEmpty5();
    Step(key, p, 5, 0x0e71f16c1e0ae74df9bd9a717f74cc89, 0xab67b8a7727a4b509992a1e3d2a394a3,
         0xd4d1c6f87c839d87caf2b8bc11f915bc, 0x2fc093940d88f3800c4fd4e26772a9bb);
    RfcEmpty6();
    Step(key, p, 6, 0x2fc093940d88f3800c4fd4e26772a9bb, 0x15c448ead784d322fe40dccd85ba0d98,
         0x6d88a37a110b3efddbf98641ca0093fd, 0xb23cc706c283b68ced35d7459b6505f5);
    RfcEmpty7();
    Step(key, p, 7, 0xb23cc706c283b68ced35d7459b6505f5, 0x37ec0ee625966b6f554dc66414eb4e6e,
         0x4e54f70e5f5fc9f384a64fb24ea6dc4f, 0xe7540162b09f1dbf5b5c6c0e60c30d0a);
    RfcEmpty8();
    Step(key, p, 8, 0xe7540162b09f1dbf5b5c6c0e60c30d0a, 0x94db5067e74ad7aa392e7c08d020a4ab,
         0xead27321b58dbad2312bf5607f8d292f, 0x987c35c3c336473245c20269ab416c8d);
    RfcEmpty9();
    Step(key, p, 9, 0x987c35c3c336473245c20269ab416c8d, 0x4605775d2e25502e6e8396236210a0f9,
         0xac7766f319fadc2128d12941575c006e, 0x05ff2cf15440057adf2096a0fa1c3991);
    Finish(key, p, 9, 0x05ff2cf15440057adf2096a0fa1c3991, 0x6b09908120b712a19e9c71da2d166be0,
           0xd014f9a8c9ee2589e13f0cc8b6630ca6, 0xbb1d6929e95937287fa37d129b756746);
  }

  // The last block of the message of one block.

  lemma RfcBlock1()
    ensures Substituted(0xbb517dec339f7e563e4f8b16086af0c8, 0xeadb3de8c3848cceb202ffb130d1f347)
    ensures Mixed(0xeadb3de8c3848cceb202ffb130d1f347, 0xa0fafe1788542cb123a339392a6c7605,
                  0xcc12961fc0c5216014bea47096aca3f9)
  {
  }

  lemma RfcBlock2()
    ensures Substituted(0xcc12961fc0c5216014bea47096aca3f9, 0x4ba64999baae0ac0fa9190d090c9fd51)
    ensures Mixed(0x4ba64999baae0ac0fa9190d090c9fd51, 0xf2c295f27a96b9435935807a7359f67f,
                  0x459c5ae936b5e2a95e8dbbd5a40dbd42)
  {
  }

  lemma RfcBlock3()
    ensures Substituted(0x459c5ae936b5e2a95e8dbbd5a40dbd42, 0x6ed5ea2c055d7a1e58d7bed349de9803)
    ensures Mixed(0x6ed5ea2c055d7a1e58d7bed349de9803, 0x3d80477d4716fe3e1e237e446d7a883b,
                  0x435647a8ce39702aa1c4f8781d2431a0)
  {
  }

  lemma RfcBlock4()
    ensures Substituted(0x435647a8ce39702aa1c4f8781d2431a0, 0x1a1241e08b1cc7c23236a0e5a4b151bc)
    ensures Mixed(0x1a1241e08b1cc7c23236a0e5a4b151bc, 0xef44a541a8525b7fb671253bdb0bad00,
                  0x4c5914e7847104bdcd314e2aad99c574)
  {
  }

  lemma RfcBlock5()
    ensures Substituted(0x4c5914e7847104bdcd314e2aad99c574, 0x29a32f925fc7a694bdeefa7a95cbf2e5)
    ensures Mixed(0x29a32f925fc7a694bdeefa7a95cbf2e5, 0xd4d1c6f87c839d87caf2b8bc11f915bc,
                  0xc546bf30a22cf53402e78a80710980f0)
  {
  }

  lemma RfcBlock6()
    ensures Substituted(0xc546bf30a22cf53402e78a80710980f0, 0xa6717e8c3a94cd0477010818a35ae6cd)
    ensures Mixed(0xa6717e8c3a94cd0477010818a35ae6cd, 0x6d88a37a110b3efddbf98641ca0093fd,
                  0x5bc207870b4a1de2268cc8e152ebf13e)
  {
  }

  lemma RfcBlock7()
    ensures Substituted(0x5bc207870b4a1de2268cc8e152ebf13e, 0x39d6e8b22b64a117f7e9c5980025a4f8)
    ensures Mixed(0x39d6e8b22b64a117f7e9c5980025a4f8, 0x4e54f70e5f5fc9f384a64fb24ea6dc4f,
                  0x074b1e041353e6650c5473b77de3b925)
  {
  }

  lemma RfcBlock8()
    ensures Substituted(0x074b1e041353e6650c5473b77de3b925, 0xc5ed8f3f7d2056f2fe11724dffb38ea9)
    ensures Mixed(0xc5ed8f3f7d2056f2fe11724dffb38ea9, 0xead27321b58dbad2312bf5607f8d292f,
                  0xe7631f698bb846dcda2c2980732f8241)
  {
  }

  lemma RfcBlock9()
    ensures Substituted(0xe7631f698bb846dcda2c2980732f8241, 0x946ca5833d7113f95715c0868ffb5acd)
    ensures Mixed(0x946ca5833d7113f95715c0868ffb5acd, 0xac7766f319fadc2128d12941575c006e,
                  0x0d4c51801ae9a6edff71617ad31d8cc4)
  {
  }

  lemma RfcBlock10()
    ensures Substituted(0x0d4c51801ae9a6edff71617ad31d8cc4, 0xd71eef1ca2a364cd16a4d155662924da)
    ensures Added(0xd71eef1ca2a364cd16a4d155662924da, 0xd014f9a8c9ee2589e13f0cc8b6630ca6,
                  0x070a16b46b4d4144f79bdd9dd04a287c)
    ensures Added(0x902f68fa1b31acf095b89e9e01a5bff4, 0x2b7e151628aed2a6abf7158809cf4f3c,
                  0xbb517dec339f7e563e4f8b16086af0c8)
  {
  }

  lemma RfcBlock(key: Block, p: Block)
    requires Reads(key, 0x2b7e151628aed2a6abf7158809cf4f3c)
    requires Reads(p, 0x902f68fa1b31acf095b89e9e01a5bff4)
    ensures Encrypts(key, p, 0x070a16b46b4d4144f79bdd9dd04a287c)
  {
    hide *;
    RfcKeys(key);
    RfcBlock10();
    Start(key, p, 0x902f68fa1b31acf095b89e9e01a5bff4, 0x2b7e151628aed2a6abf7158809cf4f3c,
          0xbb517dec339f7e563e4f8b16086af0c8);
    RfcBlock1();
    Step(key, p, 1, 0xbb517dec339f7e563e4f8b16086af0c8, 0xeadb3de8c3848cceb202ffb130d1f347,
         0xa0fafe1788542cb123a339392a6c7605, 0xcc12961fc0c5216014bea47096aca3f9);
    RfcBlock2();
    Step(key, p, 2, 0xcc12961fc0c5216014bea47096aca3f9, 0x4ba64999baae0ac0fa9190d090c9fd51,
         0xf2c295f27a96b9435935807a7359f67f, 0x459c5ae936b5e2a95e8dbbd5a40dbd42);
    RfcBlock3();
    Step(key, p, 3, 0x459c5ae936b5e2a95e8dbbd5a40dbd42, 0x6ed5ea2c055d7a1e58d7bed349de9803,
         0x3d80477d4716fe3e1e237e446d7a883b, 0x435647a8ce39702aa1c4f8781d2431a0);
    RfcBlock4();
    Step(key, p, 4, 0x435647a8ce39702aa1c4f8781d2431a0, 0x1a1241e08b1cc7c23236a0e5a4b151bc,
         0xef44a541a8525b7fb671253bdb0bad00, 0x4c5914e7847104bdcd314e2aad99c574);
    RfcBlock5();
    Step(key, p, 5, 0x4c5914e7847104bdcd314e2aad99c574, 0x29a32f925fc7a694bdeefa7a95cbf2e5,
         0xd4d1c6f87c839d87caf2b8bc11f915bc, 0xc546bf30a22cf53402e78a80710980f0);
    RfcBlock6();
    Step(key, p, 6, 0xc546bf30a22cf53402e78a80710980f0, 0xa6717e8c3a94cd0477010818a35ae6cd,
         0x6d88a37a110b3efddbf98641ca0093fd, 0x5bc207870b4a1de2268cc8e152ebf13e);
    RfcBlock7();
    Step(key, p, 7, 0x5bc207870b4a1de2268cc8e152ebf13e, 0x39d6e8b22b64a117f7e9c5980025a4f8,
         0x4e54f70e5f5fc9f384a64fb24ea6dc4f, 0x074b1e041353e6650c5473b77de3b925);
    RfcBlock8();
    Step(key, p, 8, 0x074b1e041353e6650c5473b77de3b925, 0xc5ed8f3f7d2056f2fe11724dffb38ea9,
         0xead27321b58dbad2312bf5607f8d292f, 0xe7631f698bb846dcda2c2980732f8241);
    RfcBlock9();
    Step(key, p, 9, 0xe7631f698bb846dcda2c2980732f8241, 0x946ca5833d7113f95715c0868ffb5acd,
         0xac7766f319fadc2128d12941575c006e, 0x0d4c51801ae9a6edff71617ad31d8cc4);
    Finish(key, p, 9, 0x0d4c51801ae9a6edff71617ad31d8cc4, 0xd71eef1ca2a364cd16a4d155662924da,
           0xd014f9a8c9ee2589e13f0cc8b6630ca6, 0x070a16b46b4d4144f79bdd9dd04a287c);
  }

  // The subkeys.

  predicate Shifted(q: bv128, d: bv128) {
    d == q << 1
  }

  lemma EntryOfShift(q: bv128, d: bv128, j: bv8)
    requires j < 16 && Shifted(q, d)
    ensures Entry(d, j) == Shl8(Entry(q, j), if j < 15 then Top8(Entry(q, j + 1)) else 0)
  {
  }

  lemma ShiftedAt(b: Block, q: bv128, d: bv128, i: nat, j: bv8)
    requires i < 15 && j < 15 && b[i] == Entry(q, j) && b[i + 1] == Entry(q, j + 1) && Shifted(q, d)
    ensures ShiftLeft(b)[i] == Entry(d, j)
  {
    EntryOfShift(q, d, j);
    hide Entry, Shifted;
  }

  lemma ShiftedLast(b: Block, q: bv128, d: bv128)
    requires b[15] == Entry(q, 15) && Shifted(q, d)
    ensures ShiftLeft(b)[15] == Entry(d, 15)
  {
    EntryOfShift(q, d, 15);
    hide Entry, Shifted;
  }

  lemma ShiftedIs(b: Block, q: bv128, d: bv128)
    requires Reads(b, q) && Shifted(q, d)
    ensures Reads(ShiftLeft(b), d)
  {
    hide Entry, Shifted, ShiftLeft;
    ShiftedAt(b, q, d, 0, 0);
    ShiftedAt(b, q, d, 1, 1);
    ShiftedAt(b, q, d, 2, 2);
    ShiftedAt(b, q, d, 3, 3);
    ShiftedAt(b, q, d, 4, 4);
    ShiftedAt(b, q, d, 5, 5);
    ShiftedAt(b, q, d, 6, 6);
    ShiftedAt(b, q, d, 7, 7);
    ShiftedAt(b, q, d, 8, 8);
    ShiftedAt(b, q, d, 9, 9);
    ShiftedAt(b, q, d, 10, 10);
    ShiftedAt(b, q, d, 11, 11);
    ShiftedAt(b, q, d, 12, 12);
    ShiftedAt(b, q, d, 13, 13);
    ShiftedAt(b, q, d, 14, 14);
    ShiftedLast(b, q, d);
  }

  lemma Vec87Is()
    ensures Reads(VEC87, 0x87)
  {
  }

  /** A doubling: the number is shifted, and 0x87 added if its top bit went out. */
  lemma DoubledIs(b: Block, q: bv128, m: bv128, d: bv128)
    requires Reads(b, q) && Shifted(q, m)
    requires if Top8(Entry(q, 0)) == 1 then Added(m, 0x87, d) else d == m
    ensures Reads(Double(b), d)
  {
    var top := b[0];
    assert top == Entry(q, 0);
    hide Reads, Entry, Shifted, ShiftLeft, Added, Xor;
    ShiftedIs(b, q, m);
    Vec87Is();
    if Top8(top) == 1 {
      AddedIs(ShiftLeft(b), VEC87, m, 0x87, d);
    }
  }

  lemma RfcDoublings()
    ensures Shifted(0x7df76b0c1ab899b33e42f047b91b546f, 0xfbeed618357133667c85e08f7236a8de)
    ensures Top8(Entry(0x7df76b0c1ab899b33e42f047b91b546f, 0)) == 0
    ensures Shifted(0xfbeed618357133667c85e08f7236a8de, 0xf7ddac306ae266ccf90bc11ee46d51bc)
    ensures Top8(Entry(0xfbeed618357133667c85e08f7236a8de, 0)) == 1
    ensures Added(0xf7ddac306ae266ccf90bc11ee46d51bc, 0x87, 0xf7ddac306ae266ccf90bc11ee46d513b)
  {
  }

  lemma ZerosAre()
    ensures Reads(ZEROS, 0)
  {
  }

  lemma RfcSubkeys(key: Block)
    requires Reads(key, 0x2b7e151628aed2a6abf7158809cf4f3c)
    ensures Reads(K1(ExpandedKey(key)), 0xfbeed618357133667c85e08f7236a8de)
    ensures Reads(K2(ExpandedKey(key)), 0xf7ddac306ae266ccf90bc11ee46d513b)
  {
    hide *;
    ZerosAre();
    RfcZeros(key, ZEROS);
    RfcDoublings();
    SubkeysAre(key, 0x7df76b0c1ab899b33e42f047b91b546f, 0xfbeed618357133667c85e08f7236a8de,
               0xf7ddac306ae266ccf90bc11ee46d51bc, 0xf7ddac306ae266ccf90bc11ee46d513b);
  }

  lemma SubkeysAre(key: Block, l: bv128, k1: bv128, m: bv128, k2: bv128)
    requires Encrypts(key, ZEROS, l)
    requires Shifted(l, k1) && Top8(Entry(l, 0)) == 0 && Shifted(k1, m) && Top8(Entry(k1, 0)) == 1 && Added(m, 0x87, k2)
    ensures Reads(K1(ExpandedKey(key)), k1) && Reads(K2(ExpandedKey(key)), k2)
  {
    hide Reads, Cipher, ExpandedKey, Shifted, Added, Entry, Double, Top8;
    DoubledIs(Cipher(ExpandedKey(key), ZEROS), l, k1, k1);
    DoubledIs(K1(ExpandedKey(key)), k1, m, k2);
  }

  // The codes.

  lemma MacOfOneBlock(w: Schedule, m: seq<bv8>)
    requires |m| <= 16
    ensures Mac(w, m) == Cipher(w, Xor(ZEROS, LastBlock(w, m)))
  {
    hide Cipher, Xor, LastBlock, Chain;
    assert Prepared(w, m) == [] + [LastBlock(w, m)];
    ChainSnoc(w, ZEROS, [], LastBlock(w, m));
    ChainNone(w, ZEROS, []);
  }

  lemma LastOfEmpty(w: Schedule)
    ensures LastBlock(w, []) == Xor(Padded([]), K2(w))
  {
    hide Xor, K1, K2;
  }

  lemma LastOfBlock(w: Schedule, m: Block)
    ensures LastBlock(w, m) == Xor(m, K1(w))
  {
    hide Xor, K1, K2;
    assert m[0..] == m;
  }

  lemma PaddedEmptyIs()
    ensures Reads(Padded([]), 0x80000000000000000000000000000000)
  {
    assert Padded([]) == [0x80, 0, 0, 0, 0, 0, 0, 0, 0, 0, 0, 0, 0, 0, 0, 0];
  }

  /** The last block, and what the chain adds to it. */
  lemma ChainedIs(b: Block, k: Block, s: bv128, q: bv128, t: bv128)
    requires Reads(b, s) && Reads(k, q) && Added(s, q, t) && Added(0, t, t)
    ensures Reads(Xor(ZEROS, Xor(b, k)), t)
  {
    hide Reads, Xor, Added;
    AddedIs(b, k, s, q, t);
    ZerosAre();
    AddedIs(ZEROS, Xor(b, k), 0, t, t);
  }

  lemma RfcSums()
    ensures Added(0x80000000000000000000000000000000, 0xf7ddac306ae266ccf90bc11ee46d513b,
                  0x77ddac306ae266ccf90bc11ee46d513b)
    ensures Added(0x6bc1bee22e409f96e93d7e117393172a, 0xfbeed618357133667c85e08f7236a8de,
                  0x902f68fa1b31acf095b89e9e01a5bff4)
    ensures Added(0, 0x77ddac306ae266ccf90bc11ee46d513b, 0x77ddac306ae266ccf90bc11ee46d513b)
    ensures Added(0, 0x902f68fa1b31acf095b89e9e01a5bff4, 0x902f68fa1b31acf095b89e9e01a5bff4)
  {
  }

  lemma MacOfEmptyIs(key: Block)
    requires Reads(key, 0x2b7e151628aed2a6abf7158809cf4f3c)
    ensures Reads(Mac(ExpandedKey(key), []), 0xbb1d6929e95937287fa37d129b756746)
  {
    hide *;
    var w := ExpandedKey(key);
    RfcSubkeys(key);
    RfcSums();
    PaddedEmptyIs();
    MacOfOneBlock(w, []);
    LastOfEmpty(w);
    ChainedIs(Padded([]), K2(w), 0x80000000000000000000000000000000, 0xf7ddac306ae266ccf90bc11ee46d513b,
              0x77ddac306ae266ccf90bc11ee46d513b);
    RfcEmpty(key, Xor(ZEROS, LastBlock(w, [])));
    EncryptsIs(key, Xor(ZEROS, LastBlock(w, [])), 0xbb1d6929e95937287fa37d129b756746);
  }

  lemma MacOfBlockIs(key: Block, m: Block)
    requires Reads(key, 0x2b7e151628aed2a6abf7158809cf4f3c)
    requires Reads(m, 0x6bc1bee22e409f96e93d7e117393172a)
    ensures Reads(Mac(ExpandedKey(key), m), 0x070a16b46b4d4144f79bdd9dd04a287c)
  {
    hide *;
    var w := ExpandedKey(key);
    RfcSubkeys(key);
    RfcSums();
    MacOfOneBlock(w, m);
    LastOfBlock(w, m);
    ChainedIs(m, K1(w), 0x6bc1bee22e409f96e93d7e117393172a, 0xfbeed618357133667c85e08f7236a8de,
              0x902f68fa1b31acf095b89e9e01a5bff4);
    RfcBlock(key, Xor(ZEROS, LastBlock(w, m)));
    EncryptsIs(key, Xor(ZEROS, LastBlock(w, m)), 0x070a16b46b4d4144f79bdd9dd04a287c);
  }

  // The answers, byte by byte.

  const FIPS_KEY: Block := [0x00, 0x01, 0x02, 0x03, 0x04, 0x05, 0x06, 0x07,
                            0x08, 0x09, 0x0a, 0x0b, 0x0c, 0x0d, 0x0e, 0x0f]
  const FIPS_BLOCK: Block := [0x00, 0x11, 0x22, 0x33, 0x44, 0x55, 0x66, 0x77,
                              0x88, 0x99, 0xaa, 0xbb, 0xcc, 0xdd, 0xee, 0xff]
  const FIPS_ANSWER: Block := [0x69, 0xc4, 0xe0, 0xd8, 0x6a, 0x7b, 0x04, 0x30,
                               0xd8, 0xcd, 0xb7, 0x80, 0x70, 0xb4, 0xc5, 0x5a]
  const RFC_KEY: Block := [0x2b, 0x7e, 0x15, 0x16, 0x28, 0xae, 0xd2, 0xa6,
                           0xab, 0xf7, 0x15, 0x88, 0x09, 0xcf, 0x4f, 0x3c]
  const RFC_BLOCK: Block := [0x6b, 0xc1, 0xbe, 0xe2, 0x2e, 0x40, 0x9f, 0x96,
                             0xe9, 0x3d, 0x7e, 0x11, 0x73, 0x93, 0x17, 0x2a]
  const RFC_EMPTY_ANSWER: Block := [0xbb, 0x1d, 0x69, 0x29, 0xe9, 0x59, 0x37, 0x28,
                                    0x7f, 0xa3, 0x7d, 0x12, 0x9b, 0x75, 0x67, 0x46]
  const RFC_BLOCK_ANSWER: Block := [0x07, 0x0a, 0x16, 0xb4, 0x6b, 0x4d, 0x41, 0x44,
                                    0xf7, 0x9b, 0xdd, 0x9d, 0xd0, 0x4a, 0x28, 0x7c]

  lemma FipsBytes()
    ensures Reads(FIPS_KEY, 0x000102030405060708090a0b0c0d0e0f)
    ensures Reads(FIPS_BLOCK, 0x00112233445566778899aabbccddeeff)
    ensures Reads(FIPS_ANSWER, 0x69c4e0d86a7b0430d8cdb78070b4c55a)
  {
  }

  lemma RfcBytes()
    ensures Reads(RFC_KEY, 0x2b7e151628aed2a6abf7158809cf4f3c)
    ensures Reads(RFC_BLOCK, 0x6bc1bee22e409f96e93d7e117393172a)
    ensures Reads(RFC_EMPTY_ANSWER, 0xbb1d6929e95937287fa37d129b756746)
    ensures Reads(RFC_BLOCK_ANSWER, 0x070a16b46b4d4144f79bdd9dd04a287c)
  {
  }

  /** The example of appendix C.1 of FIPS 197. */
  lemma FipsExample()
    ensures Cipher(ExpandedKey(FIPS_KEY), FIPS_BLOCK) == FIPS_ANSWER
  {
    hide Reads, Cipher, ExpandedKey;
    FipsBytes();
    FipsBlock(FIPS_KEY, FIPS_BLOCK);
    ReadsSame(Cipher(ExpandedKey(FIPS_KEY), FIPS_BLOCK), FIPS_ANSWER, 0x69c4e0d86a7b0430d8cdb78070b4c55a);
  }

  /** The code of the empty message. */
  lemma EmptyMessageExample()
    ensures Mac(ExpandedKey(RFC_KEY), []) == RFC_EMPTY_ANSWER
  {
    hide Reads, Mac, ExpandedKey;
    RfcBytes();
    MacOfEmptyIs(RFC_KEY);
    ReadsSame(Mac(ExpandedKey(RFC_KEY), []), RFC_EMPTY_ANSWER, 0xbb1d6929e95937287fa37d129b756746);
  }

  /** The code of a message of one block. */
  lemma OneBlockExample()
    ensures Mac(ExpandedKey(RFC_KEY), RFC_BLOCK) == RFC_BLOCK_ANSWER
  {
    hide Reads, Mac, ExpandedKey;
    RfcBytes();
    MacOfBlockIs(RFC_KEY, RFC_BLOCK);
    ReadsSame(Mac(ExpandedKey(RFC_KEY), RFC_BLOCK), RFC_BLOCK_ANSWER, 0x070a16b46b4d4144f79bdd9dd04a287c);
  }
}
