/** The static Huffman code of QPACK: the two flat tables of picohttp/h3zero.c, and the code of Appendix B of
    RFC 7541. */
module HuffmanTables {
  import opened Varint

  // ----- The decoder's tables

  /** `h3zero_qpack_huffman_bit` */
  function BitByte(k: nat): byte
    requires k < 64
  {
    if k < 32 then BitByte0(k) else BitByte1(k)
  }

  function BitByte0(k: nat): byte {
    if k < 16 then (
      if k < 8 then (
        if k < 4 then (
          if k < 2 then (if k < 1 then 249 else 50) else if k < 3 then 115 else 39
        ) else
        if k < 6 then (if k < 5 then 38 else 79) else if k < 7 then 147 else 39
      ) else
      if k < 12 then (
        if k < 10 then (if k < 9 then 38 else 100) else if k < 11 then 249 else 50
      ) else
      if k < 14 then (if k < 13 then 114 else 100) else if k < 15 then 242 else 100
    ) else
    if k < 24 then (
      if k < 20 then (
        if k < 18 then (if k < 17 then 228 else 228) else if k < 19 then 206 else 77
      ) else
      if k < 22 then (if k < 21 then 52 else 228) else if k < 23 then 204 else 203
    ) else
    if k < 28 then (
      if k < 26 then (if k < 25 then 202 else 114) else if k < 27 then 102 else 79
    ) else
    if k < 30 then (if k < 29 then 147 else 39) else if k < 31 then 76 else 156
  }

  function BitByte1(k: nat): byte {
    if k < 48 then (
      if k < 40 then (
        if k < 36 then (
          if k < 34 then (if k < 33 then 153 else 62) else if k < 35 then 76 else 156
        ) else
        if k < 38 then (if k < 37 then 156 else 153) else if k < 39 then 62 else 76
      ) else
      if k < 44 then (
        if k < 42 then (if k < 41 then 156 else 153) else if k < 43 then 60 else 154
      ) else
      if k < 46 then (if k < 45 then 100 else 242) else if k < 47 then 102 else 79
    ) else
    if k < 56 then (
      if k < 52 then (
        if k < 50 then (if k < 49 then 147 else 39) else if k < 51 then 38 else 83
      ) else
      if k < 54 then (if k < 53 then 228 else 201) else if k < 55 then 201 else 147
    ) else
    if k < 60 then (
      if k < 58 then (if k < 57 then 211 else 39) else if k < 59 then 38 else 79
    ) else
    if k < 62 then (if k < 61 then 38 else 78) else if k < 63 then 76 else 178
  }

  /** `h3zero_qpack_huffman_val` */
  function Val(k: nat): byte
    requires k < 512
  {
    if k < 256 then (
      if k < 128 then (
        if k < 64 then (
          if k < 32 then (if k < 16 then Val0(k) else Val1(k)) else if k < 48 then Val2(k) else Val3(k)
        ) else
        if k < 96 then (if k < 80 then Val4(k) else Val5(k)) else if k < 112 then Val6(k) else Val7(k)
      ) else
      if k < 192 then (
        if k < 160 then (if k < 144 then Val8(k) else Val9(k)) else if k < 176 then Val10(k) else Val11(k)
      ) else
      if k < 224 then (if k < 208 then Val12(k) else Val13(k)) else if k < 240 then Val14(k) else Val15(k)
    ) else
    if k < 384 then (
      if k < 320 then (
        if k < 288 then (if k < 272 then Val16(k) else Val17(k)) else if k < 304 then Val18(k) else Val19(k)
      ) else
      if k < 352 then (if k < 336 then Val20(k) else Val21(k)) else if k < 368 then Val22(k) else Val23(k)
    ) else
    if k < 448 then (
      if k < 416 then (if k < 400 then Val24(k) else Val25(k)) else if k < 432 then Val26(k) else Val27(k)
    ) else
    if k < 480 then (if k < 464 then Val28(k) else Val29(k)) else if k < 496 then Val30(k) else Val31(k)
  }

  function Val0(k: nat): byte {
    if k < 8 then (
      if k < 4 then (
        if k < 2 then (if k < 1 then 44 else 16) else if k < 3 then 8 else 4
      ) else
      if k < 6 then (if k < 5 then 2 else 48) else if k < 7 then 49 else 2
    ) else
    if k < 12 then (
      if k < 10 then (if k < 9 then 50 else 97) else if k < 11 then 4 else 2
    ) else
    if k < 14 then (if k < 13 then 99 else 101) else if k < 15 then 2 else 105
  }

  function Val1(k: nat): byte {
    if k < 24 then (
      if k < 20 then (
        if k < 18 then (if k < 17 then 111 else 12) else if k < 19 then 4 else 2
      ) else
      if k < 22 then (if k < 21 then 115 else 116) else if k < 23 then 4 else 2
    ) else
    if k < 28 then (
      if k < 26 then (if k < 25 then 32 else 37) else if k < 27 then 2 else 45
    ) else
    if k < 30 then (if k < 29 then 46 else 8) else if k < 31 then 4 else 2
  }

  function Val2(k: nat): byte {
    if k < 40 then (
      if k < 36 then (
        if k < 34 then (if k < 33 then 47 else 51) else if k < 35 then 2 else 52
      ) else
      if k < 38 then (if k < 37 then 53 else 4) else if k < 39 then 2 else 54
    ) else
    if k < 44 then (
      if k < 42 then (if k < 41 then 55 else 2) else if k < 43 then 56 else 57
    ) else
    if k < 46 then (if k < 45 then 36 else 16) else if k < 47 then 8 else 4
  }

  function Val3(k: nat): byte {
    if k < 56 then (
      if k < 52 then (
        if k < 50 then (if k < 49 then 2 else 61) else if k < 51 then 65 else 2
      ) else
      if k < 54 then (if k < 53 then 95 else 98) else if k < 55 then 4 else 2
    ) else
    if k < 60 then (
      if k < 58 then (if k < 57 then 100 else 102) else if k < 59 then 2 else 103
    ) else
    if k < 62 then (if k < 61 then 104 else 8) else if k < 63 then 4 else 2
  }

  function Val4(k: nat): byte {
    if k < 72 then (
      if k < 68 then (
        if k < 66 then (if k < 65 then 108 else 109) else if k < 67 then 2 else 110
      ) else
      if k < 70 then (if k < 69 then 112 else 4) else if k < 71 then 2 else 114
    ) else
    if k < 76 then (
      if k < 74 then (if k < 73 then 117 else 4) else if k < 75 then 2 else 58
    ) else
    if k < 78 then (if k < 77 then 66 else 2) else if k < 79 then 67 else 68
  }

  function Val5(k: nat): byte {
    if k < 88 then (
      if k < 84 then (
        if k < 82 then (if k < 81 then 32 else 16) else if k < 83 then 8 else 4
      ) else
      if k < 86 then (if k < 85 then 2 else 69) else if k < 87 then 70 else 2
    ) else
    if k < 92 then (
      if k < 90 then (if k < 89 then 71 else 72) else if k < 91 then 4 else 2
    ) else
    if k < 94 then (if k < 93 then 73 else 74) else if k < 95 then 2 else 75
  }

  function Val6(k: nat): byte {
    if k < 104 then (
      if k < 100 then (
        if k < 98 then (if k < 97 then 76 else 8) else if k < 99 then 4 else 2
      ) else
      if k < 102 then (if k < 101 then 77 else 78) else if k < 103 then 2 else 79
    ) else
    if k < 108 then (
      if k < 106 then (if k < 105 then 80 else 4) else if k < 107 then 2 else 81
    ) else
    if k < 110 then (if k < 109 then 82 else 2) else if k < 111 then 83 else 84
  }

  function Val7(k: nat): byte {
    if k < 120 then (
      if k < 116 then (
        if k < 114 then (if k < 113 then 16 else 8) else if k < 115 then 4 else 2
      ) else
      if k < 118 then (if k < 117 then 85 else 86) else if k < 119 then 2 else 87
    ) else
    if k < 124 then (
      if k < 122 then (if k < 121 then 89 else 4) else if k < 123 then 2 else 106
    ) else
    if k < 126 then (if k < 125 then 107 else 2) else if k < 127 then 113 else 118
  }

  function Val8(k: nat): byte {
    if k < 136 then (
      if k < 132 then (
        if k < 130 then (if k < 129 then 8 else 4) else if k < 131 then 2 else 119
      ) else
      if k < 134 then (if k < 133 then 120 else 2) else if k < 135 then 121 else 122
    ) else
    if k < 140 then (
      if k < 138 then (if k < 137 then 8 else 4) else if k < 139 then 2 else 38
    ) else
    if k < 142 then (if k < 141 then 42 else 2) else if k < 143 then 44 else 59
  }

  function Val9(k: nat): byte {
    if k < 152 then (
      if k < 148 then (
        if k < 146 then (if k < 145 then 4 else 2) else if k < 147 then 88 else 90
      ) else
      if k < 150 then (if k < 149 then 8 else 4) else if k < 151 then 2 else 33
    ) else
    if k < 156 then (
      if k < 154 then (if k < 153 then 34 else 2) else if k < 155 then 40 else 41
    ) else
    if k < 158 then (if k < 157 then 6 else 2) else if k < 159 then 63 else 2
  }

  function Val10(k: nat): byte {
    if k < 168 then (
      if k < 164 then (
        if k < 162 then (if k < 161 then 39 else 43) else if k < 163 then 6 else 2
      ) else
      if k < 166 then (if k < 165 then 124 else 2) else if k < 167 then 35 else 62
    ) else
    if k < 172 then (
      if k < 170 then (if k < 169 then 8 else 4) else if k < 171 then 2 else 0
    ) else
    if k < 174 then (if k < 173 then 36 else 2) else if k < 175 then 64 else 91
  }

  function Val11(k: nat): byte {
    if k < 184 then (
      if k < 180 then (
        if k < 178 then (if k < 177 then 4 else 2) else if k < 179 then 93 else 126
      ) else
      if k < 182 then (if k < 181 then 4 else 2) else if k < 183 then 94 else 125
    ) else
    if k < 188 then (
      if k < 186 then (if k < 185 then 4 else 2) else if k < 187 then 60 else 96
    ) else
    if k < 190 then (if k < 189 then 2 else 123) else if k < 191 then 30 else 10
  }

  function Val12(k: nat): byte {
    if k < 200 then (
      if k < 196 then (
        if k < 194 then (if k < 193 then 4 else 2) else if k < 195 then 92 else 195
      ) else
      if k < 198 then (if k < 197 then 2 else 208) else if k < 199 then 2 else 128
    ) else
    if k < 204 then (
      if k < 202 then (if k < 201 then 130 else 8) else if k < 203 then 4 else 2
    ) else
    if k < 206 then (if k < 205 then 131 else 162) else if k < 207 then 2 else 184
  }

  function Val13(k: nat): byte {
    if k < 216 then (
      if k < 212 then (
        if k < 210 then (if k < 209 then 194 else 4) else if k < 211 then 2 else 224
      ) else
      if k < 214 then (if k < 213 then 226 else 4) else if k < 215 then 2 else 153
    ) else
    if k < 220 then (
      if k < 218 then (if k < 217 then 161 else 2) else if k < 219 then 167 else 172
    ) else
    if k < 222 then (if k < 221 then 46 else 16) else if k < 223 then 8 else 4
  }

  function Val14(k: nat): byte {
    if k < 232 then (
      if k < 228 then (
        if k < 226 then (if k < 225 then 2 else 176) else if k < 227 then 177 else 2
      ) else
      if k < 230 then (if k < 229 then 179 else 209) else if k < 231 then 4 else 2
    ) else
    if k < 236 then (
      if k < 234 then (if k < 233 then 216 else 217) else if k < 235 then 2 else 227
    ) else
    if k < 238 then (if k < 237 then 229 else 14) else if k < 239 then 6 else 2
  }

  function Val15(k: nat): byte {
    if k < 248 then (
      if k < 244 then (
        if k < 242 then (if k < 241 then 230 else 2) else if k < 243 then 129 else 132
      ) else
      if k < 246 then (if k < 245 then 4 else 2) else if k < 247 then 133 else 134
    ) else
    if k < 252 then (
      if k < 250 then (if k < 249 then 2 else 136) else if k < 251 then 146 else 8
    ) else
    if k < 254 then (if k < 253 then 4 else 2) else if k < 255 then 154 else 156
  }

  function Val16(k: nat): byte {
    if k < 264 then (
      if k < 260 then (
        if k < 258 then (if k < 257 then 2 else 160) else if k < 259 then 163 else 4
      ) else
      if k < 262 then (if k < 261 then 2 else 164) else if k < 263 then 169 else 2
    ) else
    if k < 268 then (
      if k < 266 then (if k < 265 then 170 else 173) else if k < 267 then 40 else 16
    ) else
    if k < 270 then (if k < 269 then 8 else 4) else if k < 271 then 2 else 178
  }

  function Val17(k: nat): byte {
    if k < 280 then (
      if k < 276 then (
        if k < 274 then (if k < 273 then 181 else 2) else if k < 275 then 185 else 186
      ) else
      if k < 278 then (if k < 277 then 4 else 2) else if k < 279 then 187 else 189
    ) else
    if k < 284 then (
      if k < 282 then (if k < 281 then 2 else 190) else if k < 283 then 196 else 8
    ) else
    if k < 286 then (if k < 285 then 4 else 2) else if k < 287 then 198 else 228
  }

  function Val18(k: nat): byte {
    if k < 296 then (
      if k < 292 then (
        if k < 290 then (if k < 289 then 2 else 232) else if k < 291 then 233 else 8
      ) else
      if k < 294 then (if k < 293 then 4 else 2) else if k < 295 then 1 else 135
    ) else
    if k < 300 then (
      if k < 298 then (if k < 297 then 2 else 137) else if k < 299 then 138 else 4
    ) else
    if k < 302 then (if k < 301 then 2 else 139) else if k < 303 then 140 else 2
  }

  function Val19(k: nat): byte {
    if k < 312 then (
      if k < 308 then (
        if k < 306 then (if k < 305 then 141 else 143) else if k < 307 then 32 else 16
      ) else
      if k < 310 then (if k < 309 then 8 else 4) else if k < 311 then 2 else 147
    ) else
    if k < 316 then (
      if k < 314 then (if k < 313 then 149 else 2) else if k < 315 then 150 else 151
    ) else
    if k < 318 then (if k < 317 then 4 else 2) else if k < 319 then 152 else 155
  }

  function Val20(k: nat): byte {
    if k < 328 then (
      if k < 324 then (
        if k < 322 then (if k < 321 then 2 else 157) else if k < 323 then 158 else 8
      ) else
      if k < 326 then (if k < 325 then 4 else 2) else if k < 327 then 165 else 166
    ) else
    if k < 332 then (
      if k < 330 then (if k < 329 then 2 else 168) else if k < 331 then 174 else 4
    ) else
    if k < 334 then (if k < 333 then 2 else 175) else if k < 335 then 180 else 2
  }

  function Val21(k: nat): byte {
    if k < 344 then (
      if k < 340 then (
        if k < 338 then (if k < 337 then 182 else 183) else if k < 339 then 22 else 8
      ) else
      if k < 342 then (if k < 341 then 4 else 2) else if k < 343 then 188 else 191
    ) else
    if k < 348 then (
      if k < 346 then (if k < 345 then 2 else 197) else if k < 347 then 231 else 6
    ) else
    if k < 350 then (if k < 349 then 2 else 239) else if k < 351 then 2 else 9
  }

  function Val22(k: nat): byte {
    if k < 360 then (
      if k < 356 then (
        if k < 354 then (if k < 353 then 142 else 4) else if k < 355 then 2 else 144
      ) else
      if k < 358 then (if k < 357 then 145 else 2) else if k < 359 then 148 else 159
    ) else
    if k < 364 then (
      if k < 362 then (if k < 361 then 20 else 8) else if k < 363 then 4 else 2
    ) else
    if k < 366 then (if k < 365 then 171 else 206) else if k < 367 then 2 else 215
  }

  function Val23(k: nat): byte {
    if k < 376 then (
      if k < 372 then (
        if k < 370 then (if k < 369 then 225 else 4) else if k < 371 then 2 else 236
      ) else
      if k < 374 then (if k < 373 then 237 else 4) else if k < 375 then 2 else 199
    ) else
    if k < 380 then (
      if k < 378 then (if k < 377 then 207 else 2) else if k < 379 then 234 else 235
    ) else
    if k < 382 then (if k < 381 then 34 else 16) else if k < 383 then 8 else 4
  }

  function Val24(k: nat): byte {
    if k < 392 then (
      if k < 388 then (
        if k < 386 then (if k < 385 then 2 else 192) else if k < 387 then 193 else 2
      ) else
      if k < 390 then (if k < 389 then 200 else 201) else if k < 391 then 4 else 2
    ) else
    if k < 396 then (
      if k < 394 then (if k < 393 then 202 else 205) else if k < 395 then 2 else 210
    ) else
    if k < 398 then (if k < 397 then 213 else 8) else if k < 399 then 4 else 2
  }

  function Val25(k: nat): byte {
    if k < 408 then (
      if k < 404 then (
        if k < 402 then (if k < 401 then 218 else 219) else if k < 403 then 2 else 238
      ) else
      if k < 406 then (if k < 405 then 240 else 4) else if k < 407 then 2 else 242
    ) else
    if k < 412 then (
      if k < 410 then (if k < 409 then 243 else 2) else if k < 411 then 255 else 2
    ) else
    if k < 414 then (if k < 413 then 203 else 204) else if k < 415 then 32 else 16
  }

  function Val26(k: nat): byte {
    if k < 424 then (
      if k < 420 then (
        if k < 418 then (if k < 417 then 8 else 4) else if k < 419 then 2 else 211
      ) else
      if k < 422 then (if k < 421 then 212 else 2) else if k < 423 then 214 else 221
    ) else
    if k < 428 then (
      if k < 426 then (if k < 425 then 4 else 2) else if k < 427 then 222 else 223
    ) else
    if k < 430 then (if k < 429 then 2 else 241) else if k < 431 then 244 else 8
  }

  function Val27(k: nat): byte {
    if k < 440 then (
      if k < 436 then (
        if k < 434 then (if k < 433 then 4 else 2) else if k < 435 then 245 else 246
      ) else
      if k < 438 then (if k < 437 then 2 else 247) else if k < 439 then 248 else 4
    ) else
    if k < 444 then (
      if k < 442 then (if k < 441 then 2 else 250) else if k < 443 then 251 else 2
    ) else
    if k < 446 then (if k < 445 then 252 else 253) else if k < 447 then 30 else 14
  }

  function Val28(k: nat): byte {
    if k < 456 then (
      if k < 452 then (
        if k < 450 then (if k < 449 then 6 else 2) else if k < 451 then 254 else 2
      ) else
      if k < 454 then (if k < 453 then 2 else 3) else if k < 455 then 4 else 2
    ) else
    if k < 460 then (
      if k < 458 then (if k < 457 then 4 else 5) else if k < 459 then 2 else 6
    ) else
    if k < 462 then (if k < 461 then 7 else 8) else if k < 463 then 4 else 2
  }

  function Val29(k: nat): byte {
    if k < 472 then (
      if k < 468 then (
        if k < 466 then (if k < 465 then 8 else 11) else if k < 467 then 2 else 12
      ) else
      if k < 470 then (if k < 469 then 14 else 4) else if k < 471 then 2 else 15
    ) else
    if k < 476 then (
      if k < 474 then (if k < 473 then 16 else 2) else if k < 475 then 17 else 18
    ) else
    if k < 478 then (if k < 477 then 16 else 8) else if k < 479 then 4 else 2
  }

  function Val30(k: nat): byte {
    if k < 488 then (
      if k < 484 then (
        if k < 482 then (if k < 481 then 19 else 20) else if k < 483 then 2 else 21
      ) else
      if k < 486 then (if k < 485 then 23 else 4) else if k < 487 then 2 else 24
    ) else
    if k < 492 then (
      if k < 490 then (if k < 489 then 25 else 2) else if k < 491 then 26 else 27
    ) else
    if k < 494 then (if k < 493 then 8 else 4) else if k < 495 then 2 else 28
  }

  function Val31(k: nat): byte {
    if k < 504 then (
      if k < 500 then (
        if k < 498 then (if k < 497 then 29 else 2) else if k < 499 then 30 else 31
      ) else
      if k < 502 then (if k < 501 then 4 else 2) else if k < 503 then 127 else 220
    ) else
    if k < 508 then (
      if k < 506 then (if k < 505 then 2 else 249) else if k < 507 then 4 else 2
    ) else
    if k < 510 then (if k < 509 then 10 else 13) else if k < 511 then 2 else 22
  }

  // ----- Appendix B of RFC 7541

  /** The code of an octet as a number, most significant bit first. */
  function Code(k: byte): nat
  {
    if k < 128 then (
      if k < 64 then (
        if k < 32 then (if k < 16 then Code0(k) else Code1(k)) else if k < 48 then Code2(k) else Code3(k)
      ) else
      if k < 96 then (if k < 80 then Code4(k) else Code5(k)) else if k < 112 then Code6(k) else Code7(k)
    ) else
    if k < 192 then (
      if k < 160 then (if k < 144 then Code8(k) else Code9(k)) else if k < 176 then Code10(k) else Code11(k)
    ) else
    if k < 224 then (if k < 208 then Code12(k) else Code13(k)) else if k < 240 then Code14(k) else Code15(k)
  }

  function Code0(k: byte): nat {
    if k < 8 then (
      if k < 4 then (
        if k < 2 then (if k < 1 then 0x1ff8 else 0x7fffd8) else if k < 3 then 0xfffffe2 else 0xfffffe3
      ) else
      if k < 6 then (if k < 5 then 0xfffffe4 else 0xfffffe5) else if k < 7 then 0xfffffe6 else 0xfffffe7
    ) else
    if k < 12 then (
      if k < 10 then (if k < 9 then 0xfffffe8 else 0xffffea) else if k < 11 then 0x3ffffffc else 0xfffffe9
    ) else
    if k < 14 then (if k < 13 then 0xfffffea else 0x3ffffffd) else if k < 15 then 0xfffffeb else 0xfffffec
  }

  function Code1(k: byte): nat {
    if k < 24 then (
      if k < 20 then (
        if k < 18 then (if k < 17 then 0xfffffed else 0xfffffee) else if k < 19 then 0xfffffef else 0xffffff0
      ) else
      if k < 22 then (if k < 21 then 0xffffff1 else 0xffffff2) else if k < 23 then 0x3ffffffe else 0xffffff3
    ) else
    if k < 28 then (
      if k < 26 then (if k < 25 then 0xffffff4 else 0xffffff5) else if k < 27 then 0xffffff6 else 0xffffff7
    ) else
    if k < 30 then (if k < 29 then 0xffffff8 else 0xffffff9) else if k < 31 then 0xffffffa else 0xffffffb
  }

  function Code2(k: byte): nat {
    if k < 40 then (
      if k < 36 then (
        if k < 34 then (if k < 33 then 0x14 else 0x3f8) else if k < 35 then 0x3f9 else 0xffa
      ) else
      if k < 38 then (if k < 37 then 0x1ff9 else 0x15) else if k < 39 then 0xf8 else 0x7fa
    ) else
    if k < 44 then (
      if k < 42 then (if k < 41 then 0x3fa else 0x3fb) else if k < 43 then 0xf9 else 0x7fb
    ) else
    if k < 46 then (if k < 45 then 0xfa else 0x16) else if k < 47 then 0x17 else 0x18
  }

  function Code3(k: byte): nat {
    if k < 56 then (
      if k < 52 then (
        if k < 50 then (if k < 49 then 0x0 else 0x1) else if k < 51 then 0x2 else 0x19
      ) else
      if k < 54 then (if k < 53 then 0x1a else 0x1b) else if k < 55 then 0x1c else 0x1d
    ) else
    if k < 60 then (
      if k < 58 then (if k < 57 then 0x1e else 0x1f) else if k < 59 then 0x5c else 0xfb
    ) else
    if k < 62 then (if k < 61 then 0x7ffc else 0x20) else if k < 63 then 0xffb else 0x3fc
  }

  function Code4(k: byte): nat {
    if k < 72 then (
      if k < 68 then (
        if k < 66 then (if k < 65 then 0x1ffa else 0x21) else if k < 67 then 0x5d else 0x5e
      ) else
      if k < 70 then (if k < 69 then 0x5f else 0x60) else if k < 71 then 0x61 else 0x62
    ) else
    if k < 76 then (
      if k < 74 then (if k < 73 then 0x63 else 0x64) else if k < 75 then 0x65 else 0x66
    ) else
    if k < 78 then (if k < 77 then 0x67 else 0x68) else if k < 79 then 0x69 else 0x6a
  }

  function Code5(k: byte): nat {
    if k < 88 then (
      if k < 84 then (
        if k < 82 then (if k < 81 then 0x6b else 0x6c) else if k < 83 then 0x6d else 0x6e
      ) else
      if k < 86 then (if k < 85 then 0x6f else 0x70) else if k < 87 then 0x71 else 0x72
    ) else
    if k < 92 then (
      if k < 90 then (if k < 89 then 0xfc else 0x73) else if k < 91 then 0xfd else 0x1ffb
    ) else
    if k < 94 then (if k < 93 then 0x7fff0 else 0x1ffc) else if k < 95 then 0x3ffc else 0x22
  }

  function Code6(k: byte): nat {
    if k < 104 then (
      if k < 100 then (
        if k < 98 then (if k < 97 then 0x7ffd else 0x3) else if k < 99 then 0x23 else 0x4
      ) else
      if k < 102 then (if k < 101 then 0x24 else 0x5) else if k < 103 then 0x25 else 0x26
    ) else
    if k < 108 then (
      if k < 106 then (if k < 105 then 0x27 else 0x6) else if k < 107 then 0x74 else 0x75
    ) else
    if k < 110 then (if k < 109 then 0x28 else 0x29) else if k < 111 then 0x2a else 0x7
  }

  function Code7(k: byte): nat {
    if k < 120 then (
      if k < 116 then (
        if k < 114 then (if k < 113 then 0x2b else 0x76) else if k < 115 then 0x2c else 0x8
      ) else
      if k < 118 then (if k < 117 then 0x9 else 0x2d) else if k < 119 then 0x77 else 0x78
    ) else
    if k < 124 then (
      if k < 122 then (if k < 121 then 0x79 else 0x7a) else if k < 123 then 0x7b else 0x7ffe
    ) else
    if k < 126 then (if k < 125 then 0x7fc else 0x3ffd) else if k < 127 then 0x1ffd else 0xffffffc
  }

  function Code8(k: byte): nat {
    if k < 136 then (
      if k < 132 then (
        if k < 130 then (if k < 129 then 0xfffe6 else 0x3fffd2) else if k < 131 then 0xfffe7 else 0xfffe8
      ) else
      if k < 134 then (if k < 133 then 0x3fffd3 else 0x3fffd4) else if k < 135 then 0x3fffd5 else 0x7fffd9
    ) else
    if k < 140 then (
      if k < 138 then (if k < 137 then 0x3fffd6 else 0x7fffda) else if k < 139 then 0x7fffdb else 0x7fffdc
    ) else
    if k < 142 then (if k < 141 then 0x7fffdd else 0x7fffde) else if k < 143 then 0xffffeb else 0x7fffdf
  }

  function Code9(k: byte): nat {
    if k < 152 then (
      if k < 148 then (
        if k < 146 then (if k < 145 then 0xffffec else 0xffffed) else if k < 147 then 0x3fffd7 else 0x7fffe0
      ) else
      if k < 150 then (if k < 149 then 0xffffee else 0x7fffe1) else if k < 151 then 0x7fffe2 else 0x7fffe3
    ) else
    if k < 156 then (
      if k < 154 then (if k < 153 then 0x7fffe4 else 0x1fffdc) else if k < 155 then 0x3fffd8 else 0x7fffe5
    ) else
    if k < 158 then (if k < 157 then 0x3fffd9 else 0x7fffe6) else if k < 159 then 0x7fffe7 else 0xffffef
  }

  function Code10(k: byte): nat {
    if k < 168 then (
      if k < 164 then (
        if k < 162 then (if k < 161 then 0x3fffda else 0x1fffdd) else if k < 163 then 0xfffe9 else 0x3fffdb
      ) else
      if k < 166 then (if k < 165 then 0x3fffdc else 0x7fffe8) else if k < 167 then 0x7fffe9 else 0x1fffde
    ) else
    if k < 172 then (
      if k < 170 then (if k < 169 then 0x7fffea else 0x3fffdd) else if k < 171 then 0x3fffde else 0xfffff0
    ) else
    if k < 174 then (if k < 173 then 0x1fffdf else 0x3fffdf) else if k < 175 then 0x7fffeb else 0x7fffec
  }

  function Code11(k: byte): nat {
    if k < 184 then (
      if k < 180 then (
        if k < 178 then (if k < 177 then 0x1fffe0 else 0x1fffe1) else if k < 179 then 0x3fffe0 else 0x1fffe2
      ) else
      if k < 182 then (if k < 181 then 0x7fffed else 0x3fffe1) else if k < 183 then 0x7fffee else 0x7fffef
    ) else
    if k < 188 then (
      if k < 186 then (if k < 185 then 0xfffea else 0x3fffe2) else if k < 187 then 0x3fffe3 else 0x3fffe4
    ) else
    if k < 190 then (if k < 189 then 0x7ffff0 else 0x3fffe5) else if k < 191 then 0x3fffe6 else 0x7ffff1
  }

  function Code12(k: byte): nat {
    if k < 200 then (
      if k < 196 then (
        if k < 194 then (if k < 193 then 0x3ffffe0 else 0x3ffffe1) else if k < 195 then 0xfffeb else 0x7fff1
      ) else
      if k < 198 then (if k < 197 then 0x3fffe7 else 0x7ffff2) else if k < 199 then 0x3fffe8 else 0x1ffffec
    ) else
    if k < 204 then (
      if k < 202 then (if k < 201 then 0x3ffffe2 else 0x3ffffe3) else if k < 203 then 0x3ffffe4 else 0x7ffffde
    ) else
    if k < 206 then (if k < 205 then 0x7ffffdf else 0x3ffffe5) else if k < 207 then 0xfffff1 else 0x1ffffed
  }

  function Code13(k: byte): nat {
    if k < 216 then (
      if k < 212 then (
        if k < 210 then (if k < 209 then 0x7fff2 else 0x1fffe3) else if k < 211 then 0x3ffffe6 else 0x7ffffe0
      ) else
      if k < 214 then (if k < 213 then 0x7ffffe1 else 0x3ffffe7) else if k < 215 then 0x7ffffe2 else 0xfffff2
    ) else
    if k < 220 then (
      if k < 218 then (if k < 217 then 0x1fffe4 else 0x1fffe5) else if k < 219 then 0x3ffffe8 else 0x3ffffe9
    ) else
    if k < 222 then (if k < 221 then 0xffffffd else 0x7ffffe3) else if k < 223 then 0x7ffffe4 else 0x7ffffe5
  }

  function Code14(k: byte): nat {
    if k < 232 then (
      if k < 228 then (
        if k < 226 then (if k < 225 then 0xfffec else 0xfffff3) else if k < 227 then 0xfffed else 0x1fffe6
      ) else
      if k < 230 then (if k < 229 then 0x3fffe9 else 0x1fffe7) else if k < 231 then 0x1fffe8 else 0x7ffff3
    ) else
    if k < 236 then (
      if k < 234 then (if k < 233 then 0x3fffea else 0x3fffeb) else if k < 235 then 0x1ffffee else 0x1ffffef
    ) else
    if k < 238 then (if k < 237 then 0xfffff4 else 0xfffff5) else if k < 239 then 0x3ffffea else 0x7ffff4
  }

  function Code15(k: byte): nat {
    if k < 248 then (
      if k < 244 then (
        if k < 242 then (if k < 241 then 0x3ffffeb else 0x7ffffe6) else if k < 243 then 0x3ffffec else 0x3ffffed
      ) else
      if k < 246 then (if k < 245 then 0x7ffffe7 else 0x7ffffe8) else if k < 247 then 0x7ffffe9 else 0x7ffffea
    ) else
    if k < 252 then (
      if k < 250 then (if k < 249 then 0x7ffffeb else 0xffffffe) else if k < 251 then 0x7ffffec else 0x7ffffed
    ) else
    if k < 254 then (if k < 253 then 0x7ffffee else 0x7ffffef) else if k < 255 then 0x7fffff0 else 0x3ffffee
  }

  /** The length of the code in bits. */
  function CodeLength(k: byte): nat
  {
    if k < 128 then (
      if k < 64 then (
        if k < 32 then (if k < 16 then CodeLength0(k) else CodeLength1(k)) else if k < 48 then CodeLength2(k) else CodeLength3(k)
      ) else
      if k < 96 then (if k < 80 then CodeLength4(k) else CodeLength5(k)) else if k < 112 then CodeLength6(k) else CodeLength7(k)
    ) else
    if k < 192 then (
      if k < 160 then (if k < 144 then CodeLength8(k) else CodeLength9(k)) else if k < 176 then CodeLength10(k) else CodeLength11(k)
    ) else
    if k < 224 then (if k < 208 then CodeLength12(k) else CodeLength13(k)) else if k < 240 then CodeLength14(k) else CodeLength15(k)
  }

  function CodeLength0(k: byte): nat {
    if k < 8 then (
      if k < 4 then (
        if k < 2 then (if k < 1 then 13 else 23) else if k < 3 then 28 else 28
      ) else
      if k < 6 then (if k < 5 then 28 else 28) else if k < 7 then 28 else 28
    ) else
    if k < 12 then (
      if k < 10 then (if k < 9 then 28 else 24) else if k < 11 then 30 else 28
    ) else
    if k < 14 then (if k < 13 then 28 else 30) else if k < 15 then 28 else 28
  }

  function CodeLength1(k: byte): nat {
    if k < 24 then (
      if k < 20 then (
        if k < 18 then (if k < 17 then 28 else 28) else if k < 19 then 28 else 28
      ) else
      if k < 22 then (if k < 21 then 28 else 28) else if k < 23 then 30 else 28
    ) else
    if k < 28 then (
      if k < 26 then (if k < 25 then 28 else 28) else if k < 27 then 28 else 28
    ) else
    if k < 30 then (if k < 29 then 28 else 28) else if k < 31 then 28 else 28
  }

  function CodeLength2(k: byte): nat {
    if k < 40 then (
      if k < 36 then (
        if k < 34 then (if k < 33 then 6 else 10) else if k < 35 then 10 else 12
      ) else
      if k < 38 then (if k < 37 then 13 else 6) else if k < 39 then 8 else 11
    ) else
    if k < 44 then (
      if k < 42 then (if k < 41 then 10 else 10) else if k < 43 then 8 else 11
    ) else
    if k < 46 then (if k < 45 then 8 else 6) else if k < 47 then 6 else 6
  }

  function CodeLength3(k: byte): nat {
    if k < 56 then (
      if k < 52 then (
        if k < 50 then (if k < 49 then 5 else 5) else if k < 51 then 5 else 6
      ) else
      if k < 54 then (if k < 53 then 6 else 6) else if k < 55 then 6 else 6
    ) else
    if k < 60 then (
      if k < 58 then (if k < 57 then 6 else 6) else if k < 59 then 7 else 8
    ) else
    if k < 62 then (if k < 61 then 15 else 6) else if k < 63 then 12 else 10
  }

  function CodeLength4(k: byte): nat {
    if k < 72 then (
      if k < 68 then (
        if k < 66 then (if k < 65 then 13 else 6) else if k < 67 then 7 else 7
      ) else
      if k < 70 then (if k < 69 then 7 else 7) else if k < 71 then 7 else 7
    ) else
    if k < 76 then (
      if k < 74 then (if k < 73 then 7 else 7) else if k < 75 then 7 else 7
    ) else
    if k < 78 then (if k < 77 then 7 else 7) else if k < 79 then 7 else 7
  }

  function CodeLength5(k: byte): nat {
    if k < 88 then (
      if k < 84 then (
        if k < 82 then (if k < 81 then 7 else 7) else if k < 83 then 7 else 7
      ) else
      if k < 86 then (if k < 85 then 7 else 7) else if k < 87 then 7 else 7
    ) else
    if k < 92 then (
      if k < 90 then (if k < 89 then 8 else 7) else if k < 91 then 8 else 13
    ) else
    if k < 94 then (if k < 93 then 19 else 13) else if k < 95 then 14 else 6
  }

  function CodeLength6(k: byte): nat {
    if k < 104 then (
      if k < 100 then (
        if k < 98 then (if k < 97 then 15 else 5) else if k < 99 then 6 else 5
      ) else
      if k < 102 then (if k < 101 then 6 else 5) else if k < 103 then 6 else 6
    ) else
    if k < 108 then (
      if k < 106 then (if k < 105 then 6 else 5) else if k < 107 then 7 else 7
    ) else
    if k < 110 then (if k < 109 then 6 else 6) else if k < 111 then 6 else 5
  }

  function CodeLength7(k: byte): nat {
    if k < 120 then (
      if k < 116 then (
        if k < 114 then (if k < 113 then 6 else 7) else if k < 115 then 6 else 5
      ) else
      if k < 118 then (if k < 117 then 5 else 6) else if k < 119 then 7 else 7
    ) else
    if k < 124 then (
      if k < 122 then (if k < 121 then 7 else 7) else if k < 123 then 7 else 15
    ) else
    if k < 126 then (if k < 125 then 11 else 14) else if k < 127 then 13 else 28
  }

  function CodeLength8(k: byte): nat {
    if k < 136 then (
      if k < 132 then (
        if k < 130 then (if k < 129 then 20 else 22) else if k < 131 then 20 else 20
      ) else
      if k < 134 then (if k < 133 then 22 else 22) else if k < 135 then 22 else 23
    ) else
    if k < 140 then (
      if k < 138 then (if k < 137 then 22 else 23) else if k < 139 then 23 else 23
    ) else
    if k < 142 then (if k < 141 then 23 else 23) else if k < 143 then 24 else 23
  }

  function CodeLength9(k: byte): nat {
    if k < 152 then (
      if k < 148 then (
        if k < 146 then (if k < 145 then 24 else 24) else if k < 147 then 22 else 23
      ) else
      if k < 150 then (if k < 149 then 24 else 23) else if k < 151 then 23 else 23
    ) else
    if k < 156 then (
      if k < 154 then (if k < 153 then 23 else 21) else if k < 155 then 22 else 23
    ) else
    if k < 158 then (if k < 157 then 22 else 23) else if k < 159 then 23 else 24
  }

  function CodeLength10(k: byte): nat {
    if k < 168 then (
      if k < 164 then (
        if k < 162 then (if k < 161 then 22 else 21) else if k < 163 then 20 else 22
      ) else
      if k < 166 then (if k < 165 then 22 else 23) else if k < 167 then 23 else 21
    ) else
    if k < 172 then (
      if k < 170 then (if k < 169 then 23 else 22) else if k < 171 then 22 else 24
    ) else
    if k < 174 then (if k < 173 then 21 else 22) else if k < 175 then 23 else 23
  }

  function CodeLength11(k: byte): nat {
    if k < 184 then (
      if k < 180 then (
        if k < 178 then (if k < 177 then 21 else 21) else if k < 179 then 22 else 21
      ) else
      if k < 182 then (if k < 181 then 23 else 22) else if k < 183 then 23 else 23
    ) else
    if k < 188 then (
      if k < 186 then (if k < 185 then 20 else 22) else if k < 187 then 22 else 22
    ) else
    if k < 190 then (if k < 189 then 23 else 22) else if k < 191 then 22 else 23
  }

  function CodeLength12(k: byte): nat {
    if k < 200 then (
      if k < 196 then (
        if k < 194 then (if k < 193 then 26 else 26) else if k < 195 then 20 else 19
      ) else
      if k < 198 then (if k < 197 then 22 else 23) else if k < 199 then 22 else 25
    ) else
    if k < 204 then (
      if k < 202 then (if k < 201 then 26 else 26) else if k < 203 then 26 else 27
    ) else
    if k < 206 then (if k < 205 then 27 else 26) else if k < 207 then 24 else 25
  }

  function CodeLength13(k: byte): nat {
    if k < 216 then (
      if k < 212 then (
        if k < 210 then (if k < 209 then 19 else 21) else if k < 211 then 26 else 27
      ) else
      if k < 214 then (if k < 213 then 27 else 26) else if k < 215 then 27 else 24
    ) else
    if k < 220 then (
      if k < 218 then (if k < 217 then 21 else 21) else if k < 219 then 26 else 26
    ) else
    if k < 222 then (if k < 221 then 28 else 27) else if k < 223 then 27 else 27
  }

  function CodeLength14(k: byte): nat {
    if k < 232 then (
      if k < 228 then (
        if k < 226 then (if k < 225 then 20 else 24) else if k < 227 then 20 else 21
      ) else
      if k < 230 then (if k < 229 then 22 else 21) else if k < 231 then 21 else 23
    ) else
    if k < 236 then (
      if k < 234 then (if k < 233 then 22 else 22) else if k < 235 then 25 else 25
    ) else
    if k < 238 then (if k < 237 then 24 else 24) else if k < 239 then 26 else 23
  }

  function CodeLength15(k: byte): nat {
    if k < 248 then (
      if k < 244 then (
        if k < 242 then (if k < 241 then 26 else 27) else if k < 243 then 26 else 26
      ) else
      if k < 246 then (if k < 245 then 27 else 27) else if k < 247 then 27 else 27
    ) else
    if k < 252 then (
      if k < 250 then (if k < 249 then 27 else 28) else if k < 251 then 27 else 27
    ) else
    if k < 254 then (if k < 253 then 27 else 27) else if k < 255 then 27 else 26
  }
}
