/** The look-up tables of the AES code, a row of sixteen bytes to a number, and that the substitutions undo each
    other. */
module AesTables {

  /** Byte `x` of a row, the first byte on the left. */
  function Pick(row: bv128, x: bv8): bv8 {
    if x == 0 then ((row >> 120) & 0xff) as bv8
    else if x == 1 then ((row >> 112) & 0xff) as bv8
    else if x == 2 then ((row >> 104) & 0xff) as bv8
    else if x == 3 then ((row >> 96) & 0xff) as bv8
    else if x == 4 then ((row >> 88) & 0xff) as bv8
    else if x == 5 then ((row >> 80) & 0xff) as bv8
    else if x == 6 then ((row >> 72) & 0xff) as bv8
    else if x == 7 then ((row >> 64) & 0xff) as bv8
    else if x == 8 then ((row >> 56) & 0xff) as bv8
    else if x == 9 then ((row >> 48) & 0xff) as bv8
    else if x == 10 then ((row >> 40) & 0xff) as bv8
    else if x == 11 then ((row >> 32) & 0xff) as bv8
    else if x == 12 then ((row >> 24) & 0xff) as bv8
    else if x == 13 then ((row >> 16) & 0xff) as bv8
    else if x == 14 then ((row >> 8) & 0xff) as bv8
    else ((row) & 0xff) as bv8
  }

  /** `aes_sbox` */
  function Sub(b: bv8): bv8 {
    Pick(
      if b >> 4 == 0 then 0x637c777bf26b6fc53001672bfed7ab76
      else if b >> 4 == 1 then 0xca82c97dfa5947f0add4a2af9ca472c0
      else if b >> 4 == 2 then 0xb7fd9326363ff7cc34a5e5f171d83115
      else if b >> 4 == 3 then 0x04c723c31896059a071280e2eb27b275
      else if b >> 4 == 4 then 0x09832c1a1b6e5aa0523bd6b329e32f84
      else if b >> 4 == 5 then 0x53d100ed20fcb15b6acbbe394a4c58cf
      else if b >> 4 == 6 then 0xd0efaafb434d338545f9027f503c9fa8
      else if b >> 4 == 7 then 0x51a3408f929d38f5bcb6da2110fff3d2
      else if b >> 4 == 8 then 0xcd0c13ec5f974417c4a77e3d645d1973
      else if b >> 4 == 9 then 0x60814fdc222a908846eeb814de5e0bdb
      else if b >> 4 == 10 then 0xe0323a0a4906245cc2d3ac629195e479
      else if b >> 4 == 11 then 0xe7c8376d8dd54ea96c56f4ea657aae08
      else if b >> 4 == 12 then 0xba78252e1ca6b4c6e8dd741f4bbd8b8a
      else if b >> 4 == 13 then 0x703eb5664803f60e613557b986c11d9e
      else if b >> 4 == 14 then 0xe1f8981169d98e949b1e87e9ce5528df
      else 0x8ca1890dbfe6426841992d0fb054bb16,
      b & 0xF)
  }

  /** `aes_invsbox` */
  function InvSub(b: bv8): bv8 {
    Pick(
      if b >> 4 == 0 then 0x52096ad53036a538bf40a39e81f3d7fb
      else if b >> 4 == 1 then 0x7ce339829b2fff87348e4344c4dee9cb
      else if b >> 4 == 2 then 0x547b9432a6c2233dee4c950b42fac34e
      else if b >> 4 == 3 then 0x082ea16628d924b2765ba2496d8bd125
      else if b >> 4 == 4 then 0x72f8f66486689816d4a45ccc5d65b692
      else if b >> 4 == 5 then 0x6c704850fdedb9da5e154657a78d9d84
      else if b >> 4 == 6 then 0x90d8ab008cbcd30af7e45805b8b34506
      else if b >> 4 == 7 then 0xd02c1e8fca3f0f02c1afbd0301138a6b
      else if b >> 4 == 8 then 0x3a9111414f67dcea97f2cfcef0b4e673
      else if b >> 4 == 9 then 0x96ac7422e7ad3585e2f937e81c75df6e
      else if b >> 4 == 10 then 0x47f11a711d29c5896fb7620eaa18be1b
      else if b >> 4 == 11 then 0xfc563e4bc6d279209adbc0fe78cd5af4
      else if b >> 4 == 12 then 0x1fdda8338807c731b11210592780ec5f
      else if b >> 4 == 13 then 0x60517fa919b54a0d2de57a9f93c99cef
      else if b >> 4 == 14 then 0xa0e03b4dae2af5b0c8ebbb3c83539961
      else 0x172b047eba77d626e169146355210c7d,
      b & 0xF)
  }

  /** Column 0 of `gf_mul`: the product with 2. */
  function Mul2(b: bv8): bv8 {
    Pick(
      if b >> 4 == 0 then 0x00020406080a0c0e10121416181a1c1e
      else if b >> 4 == 1 then 0x20222426282a2c2e30323436383a3c3e
      else if b >> 4 == 2 then 0x40424446484a4c4e50525456585a5c5e
      else if b >> 4 == 3 then 0x60626466686a6c6e70727476787a7c7e
      else if b >> 4 == 4 then 0x80828486888a8c8e90929496989a9c9e
      else if b >> 4 == 5 then 0xa0a2a4a6a8aaacaeb0b2b4b6b8babcbe
      else if b >> 4 == 6 then 0xc0c2c4c6c8caccced0d2d4d6d8dadcde
      else if b >> 4 == 7 then 0xe0e2e4e6e8eaeceef0f2f4f6f8fafcfe
      else if b >> 4 == 8 then 0x1b191f1d131117150b090f0d03010705
      else if b >> 4 == 9 then 0x3b393f3d333137352b292f2d23212725
      else if b >> 4 == 10 then 0x5b595f5d535157554b494f4d43414745
      else if b >> 4 == 11 then 0x7b797f7d737177756b696f6d63616765
      else if b >> 4 == 12 then 0x9b999f9d939197958b898f8d83818785
      else if b >> 4 == 13 then 0xbbb9bfbdb3b1b7b5aba9afada3a1a7a5
      else if b >> 4 == 14 then 0xdbd9dfddd3d1d7d5cbc9cfcdc3c1c7c5
      else 0xfbf9fffdf3f1f7f5ebe9efede3e1e7e5,
      b & 0xF)
  }

  /** Column 1 of `gf_mul`: the product with 3. */
  function Mul3(b: bv8): bv8 {
    Pick(
      if b >> 4 == 0 then 0x000306050c0f0a09181b1e1d14171211
      else if b >> 4 == 1 then 0x303336353c3f3a39282b2e2d24272221
      else if b >> 4 == 2 then 0x606366656c6f6a69787b7e7d74777271
      else if b >> 4 == 3 then 0x505356555c5f5a59484b4e4d44474241
      else if b >> 4 == 4 then 0xc0c3c6c5cccfcac9d8dbdeddd4d7d2d1
      else if b >> 4 == 5 then 0xf0f3f6f5fcfffaf9e8ebeeede4e7e2e1
      else if b >> 4 == 6 then 0xa0a3a6a5acafaaa9b8bbbebdb4b7b2b1
      else if b >> 4 == 7 then 0x909396959c9f9a99888b8e8d84878281
      else if b >> 4 == 8 then 0x9b989d9e97949192838085868f8c898a
      else if b >> 4 == 9 then 0xaba8adaea7a4a1a2b3b0b5b6bfbcb9ba
      else if b >> 4 == 10 then 0xfbf8fdfef7f4f1f2e3e0e5e6efece9ea
      else if b >> 4 == 11 then 0xcbc8cdcec7c4c1c2d3d0d5d6dfdcd9da
      else if b >> 4 == 12 then 0x5b585d5e57545152434045464f4c494a
      else if b >> 4 == 13 then 0x6b686d6e67646162737075767f7c797a
      else if b >> 4 == 14 then 0x3b383d3e37343132232025262f2c292a
      else 0x0b080d0e07040102131015161f1c191a,
      b & 0xF)
  }

  /** Column 2 of `gf_mul`: the product with 9. */
  function Mul9(b: bv8): bv8 {
    Pick(
      if b >> 4 == 0 then 0x0009121b242d363f48415a536c657e77
      else if b >> 4 == 1 then 0x9099828bb4bda6afd8d1cac3fcf5eee7
      else if b >> 4 == 2 then 0x3b3229201f160d04737a6168575e454c
      else if b >> 4 == 3 then 0xaba2b9b08f869d94e3eaf1f8c7ced5dc
      else if b >> 4 == 4 then 0x767f646d525b40493e372c251a130801
      else if b >> 4 == 5 then 0xe6eff4fdc2cbd0d9aea7bcb58a839891
      else if b >> 4 == 6 then 0x4d445f5669607b72050c171e2128333a
      else if b >> 4 == 7 then 0xddd4cfc6f9f0ebe2959c878eb1b8a3aa
      else if b >> 4 == 8 then 0xece5fef7c8c1dad3a4adb6bf8089929b
      else if b >> 4 == 9 then 0x7c756e6758514a43343d262f1019020b
      else if b >> 4 == 10 then 0xd7dec5ccf3fae1e89f968d84bbb2a9a0
      else if b >> 4 == 11 then 0x474e555c636a71780f061d142b223930
      else if b >> 4 == 12 then 0x9a938881beb7aca5d2dbc0c9f6ffe4ed
      else if b >> 4 == 13 then 0x0a0318112e273c35424b5059666f747d
      else if b >> 4 == 14 then 0xa1a8b3ba858c979ee9e0fbf2cdc4dfd6
      else 0x3138232a151c070e79706b625d544f46,
      b & 0xF)
  }

  /** Column 3 of `gf_mul`: the product with 11. */
  function Mul11(b: bv8): bv8 {
    Pick(
      if b >> 4 == 0 then 0x000b161d2c273a3158534e45747f6269
      else if b >> 4 == 1 then 0xb0bba6ad9c978a81e8e3fef5c4cfd2d9
      else if b >> 4 == 2 then 0x7b706d66575c414a2328353e0f041912
      else if b >> 4 == 3 then 0xcbc0ddd6e7ecf1fa9398858ebfb4a9a2
      else if b >> 4 == 4 then 0xf6fde0ebdad1ccc7aea5b8b38289949f
      else if b >> 4 == 5 then 0x464d505b6a617c771e1508033239242f
      else if b >> 4 == 6 then 0x8d869b90a1aab7bcd5dec3c8f9f2efe4
      else if b >> 4 == 7 then 0x3d362b20111a070c656e737849425f54
      else if b >> 4 == 8 then 0xf7fce1eadbd0cdc6afa4b9b28388959e
      else if b >> 4 == 9 then 0x474c515a6b607d761f1409023338252e
      else if b >> 4 == 10 then 0x8c879a91a0abb6bdd4dfc2c9f8f3eee5
      else if b >> 4 == 11 then 0x3c372a21101b060d646f727948435e55
      else if b >> 4 == 12 then 0x010a171c2d263b3059524f44757e6368
      else if b >> 4 == 13 then 0xb1baa7ac9d968b80e9e2fff4c5ced3d8
      else if b >> 4 == 14 then 0x7a716c67565d404b2229343f0e051813
      else 0xcac1dcd7e6edf0fb9299848fbeb5a8a3,
      b & 0xF)
  }

  /** Column 4 of `gf_mul`: the product with 13. */
  function Mul13(b: bv8): bv8 {
    Pick(
      if b >> 4 == 0 then 0x000d1a1734392e236865727f5c51464b
      else if b >> 4 == 1 then 0xd0ddcac7e4e9fef3b8b5a2af8c81969b
      else if b >> 4 == 2 then 0xbbb6a1ac8f829598d3dec9c4e7eafdf0
      else if b >> 4 == 3 then 0x6b66717c5f524548030e1914373a2d20
      else if b >> 4 == 4 then 0x6d60777a5954434e05081f12313c2b26
      else if b >> 4 == 5 then 0xbdb0a7aa8984939ed5d8cfc2e1ecfbf6
      else if b >> 4 == 6 then 0xd6dbccc1e2eff8f5beb3a4a98a87909d
      else if b >> 4 == 7 then 0x060b1c11323f28256e6374795a57404d
      else if b >> 4 == 8 then 0xdad7c0cdeee3f4f9b2bfa8a5868b9c91
      else if b >> 4 == 9 then 0x0a07101d3e332429626f7875565b4c41
      else if b >> 4 == 10 then 0x616c7b7655584f420904131e3d30272a
      else if b >> 4 == 11 then 0xb1bcaba685889f92d9d4c3ceede0f7fa
      else if b >> 4 == 12 then 0xb7baada0838e9994dfd2c5c8ebe6f1fc
      else if b >> 4 == 13 then 0x676a7d70535e49440f0215183b36212c
      else if b >> 4 == 14 then 0x0c01161b3835222f64697e73505d4a47
      else 0xdcd1c6cbe8e5f2ffb4b9aea3808d9a97,
      b & 0xF)
  }

  /** Column 5 of `gf_mul`: the product with 14. */
  function Mul14(b: bv8): bv8 {
    Pick(
      if b >> 4 == 0 then 0x000e1c123836242a707e6c624846545a
      else if b >> 4 == 1 then 0xe0eefcf2d8d6c4ca909e8c82a8a6b4ba
      else if b >> 4 == 2 then 0xdbd5c7c9e3edfff1aba5b7b9939d8f81
      else if b >> 4 == 3 then 0x3b352729030d1f114b455759737d6f61
      else if b >> 4 == 4 then 0xada3b1bf959b8987ddd3c1cfe5ebf9f7
      else if b >> 4 == 5 then 0x4d43515f757b69673d33212f050b1917
      else if b >> 4 == 6 then 0x76786a644e40525c06081a143e30222c
      else if b >> 4 == 7 then 0x96988a84aea0b2bce6e8faf4ded0c2cc
      else if b >> 4 == 8 then 0x414f5d537977656b313f2d230907151b
      else if b >> 4 == 9 then 0xa1afbdb39997858bd1dfcdc3e9e7f5fb
      else if b >> 4 == 10 then 0x9a948688a2acbeb0eae4f6f8d2dccec0
      else if b >> 4 == 11 then 0x7a746668424c5e500a041618323c2e20
      else if b >> 4 == 12 then 0xece2f0fed4dac8c69c92808ea4aab8b6
      else if b >> 4 == 13 then 0x0c02101e343a28267c72606e444a5856
      else if b >> 4 == 14 then 0x37392b250f01131d47495b557f71636d
      else 0xd7d9cbc5efe1f3fda7a9bbb59f91838d,
      b & 0xF)
  }

  /** The substitution tables undo each other. */
  lemma SubInverse(b: bv8)
    ensures InvSub(Sub(b)) == b
  {
  }

  lemma SubInverse2(b: bv8)
    ensures Sub(InvSub(b)) == b
  {
  }
}
