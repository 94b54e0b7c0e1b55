/** The field GF(256) that meteor_ecc.cc computes in: the two log tables of the
    source, the multiplication they stand for (polynomials over GF(2) modulo
    x^8 + x^7 + x^2 + x + 1) and the field laws. */
module Gf256 {

  // ALPHA_ARR, its 256 entries in order; entry 255 is zero.
  function Alpha(i: int): bv8
    requires 0 <= i < 256
  {
    (if i < 128 then
     (if i < 64 then
      (if i < 32 then
       (if i < 16 then
        (if i < 8 then
         (if i < 4 then (if i < 2 then (if i < 1 then 1 else 2) else if i < 3 then 4 else 8)
          else if i < 6 then (if i < 5 then 16 else 32) else if i < 7 then 64 else 128)
        else
         (if i < 12 then (if i < 10 then (if i < 9 then 135 else 137) else if i < 11 then 149 else 173)
          else if i < 14 then (if i < 13 then 221 else 61) else if i < 15 then 122 else 244))
       else
        (if i < 24 then
         (if i < 20 then (if i < 18 then (if i < 17 then 111 else 222) else if i < 19 then 59 else 118)
          else if i < 22 then (if i < 21 then 236 else 95) else if i < 23 then 190 else 251)
        else
         (if i < 28 then (if i < 26 then (if i < 25 then 113 else 226) else if i < 27 then 67 else 134)
          else if i < 30 then (if i < 29 then 139 else 145) else if i < 31 then 165 else 205)))
      else
       (if i < 48 then
        (if i < 40 then
         (if i < 36 then (if i < 34 then (if i < 33 then 29 else 58) else if i < 35 then 116 else 232)
          else if i < 38 then (if i < 37 then 87 else 174) else if i < 39 then 219 else 49)
        else
         (if i < 44 then (if i < 42 then (if i < 41 then 98 else 196) else if i < 43 then 15 else 30)
          else if i < 46 then (if i < 45 then 60 else 120) else if i < 47 then 240 else 103))
       else
        (if i < 56 then
         (if i < 52 then (if i < 50 then (if i < 49 then 206 else 27) else if i < 51 then 54 else 108)
          else if i < 54 then (if i < 53 then 216 else 55) else if i < 55 then 110 else 220)
        else
         (if i < 60 then (if i < 58 then (if i < 57 then 63 else 126) else if i < 59 then 252 else 127)
          else if i < 62 then (if i < 61 then 254 else 123) else if i < 63 then 246 else 107))))
     else
      (if i < 96 then
       (if i < 80 then
        (if i < 72 then
         (if i < 68 then (if i < 66 then (if i < 65 then 214 else 43) else if i < 67 then 86 else 172)
          else if i < 70 then (if i < 69 then 223 else 57) else if i < 71 then 114 else 228)
        else
         (if i < 76 then (if i < 74 then (if i < 73 then 79 else 158) else if i < 75 then 187 else 241)
          else if i < 78 then (if i < 77 then 101 else 202) else if i < 79 then 19 else 38))
       else
        (if i < 88 then
         (if i < 84 then (if i < 82 then (if i < 81 then 76 else 152) else if i < 83 then 183 else 233)
          else if i < 86 then (if i < 85 then 85 else 170) else if i < 87 then 211 else 33)
        else
         (if i < 92 then (if i < 90 then (if i < 89 then 66 else 132) else if i < 91 then 143 else 153)
          else if i < 94 then (if i < 93 then 181 else 237) else if i < 95 then 93 else 186)))
      else
       (if i < 112 then
        (if i < 104 then
         (if i < 100 then (if i < 98 then (if i < 97 then 243 else 97) else if i < 99 then 194 else 3)
          else if i < 102 then (if i < 101 then 6 else 12) else if i < 103 then 24 else 48)
        else
         (if i < 108 then (if i < 106 then (if i < 105 then 96 else 192) else if i < 107 then 7 else 14)
          else if i < 110 then (if i < 109 then 28 else 56) else if i < 111 then 112 else 224))
       else
        (if i < 120 then
         (if i < 116 then (if i < 114 then (if i < 113 then 71 else 142) else if i < 115 then 155 else 177)
          else if i < 118 then (if i < 117 then 229 else 77) else if i < 119 then 154 else 179)
        else
         (if i < 124 then (if i < 122 then (if i < 121 then 225 else 69) else if i < 123 then 138 else 147)
          else if i < 126 then (if i < 125 then 161 else 197) else if i < 127 then 13 else 26)))))
    else
     (if i < 192 then
      (if i < 160 then
       (if i < 144 then
        (if i < 136 then
         (if i < 132 then (if i < 130 then (if i < 129 then 52 else 104) else if i < 131 then 208 else 39)
          else if i < 134 then (if i < 133 then 78 else 156) else if i < 135 then 191 else 249)
        else
         (if i < 140 then (if i < 138 then (if i < 137 then 117 else 234) else if i < 139 then 83 else 166)
          else if i < 142 then (if i < 141 then 203 else 17) else if i < 143 then 34 else 68))
       else
        (if i < 152 then
         (if i < 148 then (if i < 146 then (if i < 145 then 136 else 151) else if i < 147 then 169 else 213)
          else if i < 150 then (if i < 149 then 45 else 90) else if i < 151 then 180 else 239)
        else
         (if i < 156 then (if i < 154 then (if i < 153 then 89 else 178) else if i < 155 then 227 else 65)
          else if i < 158 then (if i < 157 then 130 else 131) else if i < 159 then 129 else 133)))
      else
       (if i < 176 then
        (if i < 168 then
         (if i < 164 then (if i < 162 then (if i < 161 then 141 else 157) else if i < 163 then 189 else 253)
          else if i < 166 then (if i < 165 then 125 else 250) else if i < 167 then 115 else 230)
        else
         (if i < 172 then (if i < 170 then (if i < 169 then 75 else 150) else if i < 171 then 171 else 209)
          else if i < 174 then (if i < 173 then 37 else 74) else if i < 175 then 148 else 175))
       else
        (if i < 184 then
         (if i < 180 then (if i < 178 then (if i < 177 then 217 else 53) else if i < 179 then 106 else 212)
          else if i < 182 then (if i < 181 then 47 else 94) else if i < 183 then 188 else 255)
        else
         (if i < 188 then (if i < 186 then (if i < 185 then 121 else 242) else if i < 187 then 99 else 198)
          else if i < 190 then (if i < 189 then 11 else 22) else if i < 191 then 44 else 88))))
     else
      (if i < 224 then
       (if i < 208 then
        (if i < 200 then
         (if i < 196 then (if i < 194 then (if i < 193 then 176 else 231) else if i < 195 then 73 else 146)
          else if i < 198 then (if i < 197 then 163 else 193) else if i < 199 then 5 else 10)
        else
         (if i < 204 then (if i < 202 then (if i < 201 then 20 else 40) else if i < 203 then 80 else 160)
          else if i < 206 then (if i < 205 then 199 else 9) else if i < 207 then 18 else 36))
       else
        (if i < 216 then
         (if i < 212 then (if i < 210 then (if i < 209 then 72 else 144) else if i < 211 then 167 else 201)
          else if i < 214 then (if i < 213 then 21 else 42) else if i < 215 then 84 else 168)
        else
         (if i < 220 then (if i < 218 then (if i < 217 then 215 else 41) else if i < 219 then 82 else 164)
          else if i < 222 then (if i < 221 then 207 else 25) else if i < 223 then 50 else 100)))
      else
       (if i < 240 then
        (if i < 232 then
         (if i < 228 then (if i < 226 then (if i < 225 then 200 else 23) else if i < 227 then 46 else 92)
          else if i < 230 then (if i < 229 then 184 else 247) else if i < 231 then 105 else 210)
        else
         (if i < 236 then (if i < 234 then (if i < 233 then 35 else 70) else if i < 235 then 140 else 159)
          else if i < 238 then (if i < 237 then 185 else 245) else if i < 239 then 109 else 218))
       else
        (if i < 248 then
         (if i < 244 then (if i < 242 then (if i < 241 then 51 else 102) else if i < 243 then 204 else 31)
          else if i < 246 then (if i < 245 then 62 else 124) else if i < 247 then 248 else 119)
        else
         (if i < 252 then (if i < 250 then (if i < 249 then 238 else 91) else if i < 251 then 182 else 235)
          else if i < 254 then (if i < 253 then 81 else 162) else if i < 255 then 195 else 0))))))
  }

  // IDX_ARR, its entries selected by the bits of the index; the log of zero is 255.
  function Idx(i: bv8): int
  {
    (if i & 128 == 0 then
     (if i & 64 == 0 then
      (if i & 32 == 0 then
       (if i & 16 == 0 then
        (if i & 8 == 0 then
         (if i & 4 == 0 then (if i & 2 == 0 then (if i & 1 == 0 then 255 else 0) else if i & 1 == 0 then 1 else 99)
          else if i & 2 == 0 then (if i & 1 == 0 then 2 else 198) else if i & 1 == 0 then 100 else 106)
        else
         (if i & 4 == 0 then (if i & 2 == 0 then (if i & 1 == 0 then 3 else 205) else if i & 1 == 0 then 199 else 188)
          else if i & 2 == 0 then (if i & 1 == 0 then 101 else 126) else if i & 1 == 0 then 107 else 42))
       else
        (if i & 8 == 0 then
         (if i & 4 == 0 then (if i & 2 == 0 then (if i & 1 == 0 then 4 else 141) else if i & 1 == 0 then 206 else 78)
          else if i & 2 == 0 then (if i & 1 == 0 then 200 else 212) else if i & 1 == 0 then 189 else 225)
        else
         (if i & 4 == 0 then (if i & 2 == 0 then (if i & 1 == 0 then 102 else 221) else if i & 1 == 0 then 127 else 49)
          else if i & 2 == 0 then (if i & 1 == 0 then 108 else 32) else if i & 1 == 0 then 43 else 243)))
      else
       (if i & 16 == 0 then
        (if i & 8 == 0 then
         (if i & 4 == 0 then (if i & 2 == 0 then (if i & 1 == 0 then 5 else 87) else if i & 1 == 0 then 142 else 232)
          else if i & 2 == 0 then (if i & 1 == 0 then 207 else 172) else if i & 1 == 0 then 79 else 131)
        else
         (if i & 4 == 0 then (if i & 2 == 0 then (if i & 1 == 0 then 201 else 217) else if i & 1 == 0 then 213 else 65)
          else if i & 2 == 0 then (if i & 1 == 0 then 190 else 148) else if i & 1 == 0 then 226 else 180))
       else
        (if i & 8 == 0 then
         (if i & 4 == 0 then (if i & 2 == 0 then (if i & 1 == 0 then 103 else 39) else if i & 1 == 0 then 222 else 240)
          else if i & 2 == 0 then (if i & 1 == 0 then 128 else 177) else if i & 1 == 0 then 50 else 53)
        else
         (if i & 4 == 0 then (if i & 2 == 0 then (if i & 1 == 0 then 109 else 69) else if i & 1 == 0 then 33 else 18)
          else if i & 2 == 0 then (if i & 1 == 0 then 44 else 13) else if i & 1 == 0 then 244 else 56))))
     else
      (if i & 32 == 0 then
       (if i & 16 == 0 then
        (if i & 8 == 0 then
         (if i & 4 == 0 then (if i & 2 == 0 then (if i & 1 == 0 then 6 else 155) else if i & 1 == 0 then 88 else 26)
          else if i & 2 == 0 then (if i & 1 == 0 then 143 else 121) else if i & 1 == 0 then 233 else 112)
        else
         (if i & 4 == 0 then (if i & 2 == 0 then (if i & 1 == 0 then 208 else 194) else if i & 1 == 0 then 173 else 168)
          else if i & 2 == 0 then (if i & 1 == 0 then 80 else 117) else if i & 1 == 0 then 132 else 72))
       else
        (if i & 8 == 0 then
         (if i & 4 == 0 then (if i & 2 == 0 then (if i & 1 == 0 then 202 else 252) else if i & 1 == 0 then 218 else 138)
          else if i & 2 == 0 then (if i & 1 == 0 then 214 else 84) else if i & 1 == 0 then 66 else 36)
        else
         (if i & 4 == 0 then (if i & 2 == 0 then (if i & 1 == 0 then 191 else 152) else if i & 1 == 0 then 149 else 249)
          else if i & 2 == 0 then (if i & 1 == 0 then 227 else 94) else if i & 1 == 0 then 181 else 21)))
      else
       (if i & 16 == 0 then
        (if i & 8 == 0 then
         (if i & 4 == 0 then (if i & 2 == 0 then (if i & 1 == 0 then 104 else 97) else if i & 1 == 0 then 40 else 186)
          else if i & 2 == 0 then (if i & 1 == 0 then 223 else 76) else if i & 1 == 0 then 241 else 47)
        else
         (if i & 4 == 0 then (if i & 2 == 0 then (if i & 1 == 0 then 129 else 230) else if i & 1 == 0 then 178 else 63)
          else if i & 2 == 0 then (if i & 1 == 0 then 51 else 238) else if i & 1 == 0 then 54 else 16))
       else
        (if i & 8 == 0 then
         (if i & 4 == 0 then (if i & 2 == 0 then (if i & 1 == 0 then 110 else 24) else if i & 1 == 0 then 70 else 166)
          else if i & 2 == 0 then (if i & 1 == 0 then 34 else 136) else if i & 1 == 0 then 19 else 247)
        else
         (if i & 4 == 0 then (if i & 2 == 0 then (if i & 1 == 0 then 45 else 184) else if i & 1 == 0 then 14 else 61)
          else if i & 2 == 0 then (if i & 1 == 0 then 245 else 164) else if i & 1 == 0 then 57 else 59)))))
    else
     (if i & 64 == 0 then
      (if i & 32 == 0 then
       (if i & 16 == 0 then
        (if i & 8 == 0 then
         (if i & 4 == 0 then (if i & 2 == 0 then (if i & 1 == 0 then 7 else 158) else if i & 1 == 0 then 156 else 157)
          else if i & 2 == 0 then (if i & 1 == 0 then 89 else 159) else if i & 1 == 0 then 27 else 8)
        else
         (if i & 4 == 0 then (if i & 2 == 0 then (if i & 1 == 0 then 144 else 9) else if i & 1 == 0 then 122 else 28)
          else if i & 2 == 0 then (if i & 1 == 0 then 234 else 160) else if i & 1 == 0 then 113 else 90))
       else
        (if i & 8 == 0 then
         (if i & 4 == 0 then (if i & 2 == 0 then (if i & 1 == 0 then 209 else 29) else if i & 1 == 0 then 195 else 123)
          else if i & 2 == 0 then (if i & 1 == 0 then 174 else 10) else if i & 1 == 0 then 169 else 145)
        else
         (if i & 4 == 0 then (if i & 2 == 0 then (if i & 1 == 0 then 81 else 91) else if i & 1 == 0 then 118 else 114)
          else if i & 2 == 0 then (if i & 1 == 0 then 133 else 161) else if i & 1 == 0 then 73 else 235)))
      else
       (if i & 16 == 0 then
        (if i & 8 == 0 then
         (if i & 4 == 0 then (if i & 2 == 0 then (if i & 1 == 0 then 203 else 124) else if i & 1 == 0 then 253 else 196)
          else if i & 2 == 0 then (if i & 1 == 0 then 219 else 30) else if i & 1 == 0 then 139 else 210)
        else
         (if i & 4 == 0 then (if i & 2 == 0 then (if i & 1 == 0 then 215 else 146) else if i & 1 == 0 then 85 else 170)
          else if i & 2 == 0 then (if i & 1 == 0 then 67 else 11) else if i & 1 == 0 then 37 else 175))
       else
        (if i & 8 == 0 then
         (if i & 4 == 0 then (if i & 2 == 0 then (if i & 1 == 0 then 192 else 115) else if i & 1 == 0 then 153 else 119)
          else if i & 2 == 0 then (if i & 1 == 0 then 150 else 92) else if i & 1 == 0 then 250 else 82)
        else
         (if i & 4 == 0 then (if i & 2 == 0 then (if i & 1 == 0 then 228 else 236) else if i & 1 == 0 then 95 else 74)
          else if i & 2 == 0 then (if i & 1 == 0 then 182 else 162) else if i & 1 == 0 then 22 else 134))))
     else
      (if i & 32 == 0 then
       (if i & 16 == 0 then
        (if i & 8 == 0 then
         (if i & 4 == 0 then (if i & 2 == 0 then (if i & 1 == 0 then 105 else 197) else if i & 1 == 0 then 98 else 254)
          else if i & 2 == 0 then (if i & 1 == 0 then 41 else 125) else if i & 1 == 0 then 187 else 204)
        else
         (if i & 4 == 0 then (if i & 2 == 0 then (if i & 1 == 0 then 224 else 211) else if i & 1 == 0 then 77 else 140)
          else if i & 2 == 0 then (if i & 1 == 0 then 242 else 31) else if i & 1 == 0 then 48 else 220))
       else
        (if i & 8 == 0 then
         (if i & 4 == 0 then (if i & 2 == 0 then (if i & 1 == 0 then 130 else 171) else if i & 1 == 0 then 231 else 86)
          else if i & 2 == 0 then (if i & 1 == 0 then 179 else 147) else if i & 1 == 0 then 64 else 216)
        else
         (if i & 4 == 0 then (if i & 2 == 0 then (if i & 1 == 0 then 52 else 176) else if i & 1 == 0 then 239 else 38)
          else if i & 2 == 0 then (if i & 1 == 0 then 55 else 12) else if i & 1 == 0 then 17 else 68)))
      else
       (if i & 16 == 0 then
        (if i & 8 == 0 then
         (if i & 4 == 0 then (if i & 2 == 0 then (if i & 1 == 0 then 111 else 120) else if i & 1 == 0 then 25 else 154)
          else if i & 2 == 0 then (if i & 1 == 0 then 71 else 116) else if i & 1 == 0 then 167 else 193)
        else
         (if i & 4 == 0 then (if i & 2 == 0 then (if i & 1 == 0 then 35 else 83) else if i & 1 == 0 then 137 else 251)
          else if i & 2 == 0 then (if i & 1 == 0 then 20 else 93) else if i & 1 == 0 then 248 else 151))
       else
        (if i & 8 == 0 then
         (if i & 4 == 0 then (if i & 2 == 0 then (if i & 1 == 0 then 46 else 75) else if i & 1 == 0 then 185 else 96)
          else if i & 2 == 0 then (if i & 1 == 0 then 15 else 237) else if i & 1 == 0 then 62 else 229)
        else
         (if i & 4 == 0 then (if i & 2 == 0 then (if i & 1 == 0 then 246 else 135) else if i & 1 == 0 then 165 else 23)
          else if i & 2 == 0 then (if i & 1 == 0 then 58 else 163) else if i & 1 == 0 then 60 else 183))))))
  }

  // Multiplication by x modulo the field polynomial.
  function XTime(a: bv8): bv8
  {
    if a & 0x80 != 0 then (a << 1) ^ 0x87 else a << 1
  }

  // Addition, and so subtraction too: the source's ^ operator.
  function Xor(a: bv8, b: bv8): bv8
  {
    a ^ b
  }

  // a * x^k
  function Shift(a: bv8, k: nat): bv8
  {
    if k == 0 then a else XTime(Shift(a, k - 1))
  }

  // The bits of a byte.
  const BYTE: seq<nat> := [0, 1, 2, 3, 4, 5, 6, 7]

  // The product in the field: the multiples of a chosen by the low n bits of b.
  function MulBits(a: bv8, b: bv8, n: nat): bv8
    decreases n
  {
    if n == 0 then 0 else Xor(Chosen(a, b), MulBits(XTime(a), Half(b), n - 1))
  }

  function Chosen(a: bv8, b: bv8): bv8
  {
    if b & 1 != 0 then a else 0
  }

  function Half(b: bv8): bv8
  {
    b >> 1
  }

  // The product in the field, by the bits of the second factor.
  function Mul(a: bv8, b: bv8): bv8
  {
    MulBits(a, b, |BYTE|)
  }

  // The n-th power of the primitive element.
  function Pow(n: nat): bv8
  {
    Shift(1, n)
  }

  // ----- the tables ---------------------------------------------------------

  // Taking the log and then the antilog changes nothing; 255 stands for zero.
  lemma AlphaOfIdx(a: bv8)
    ensures 0 <= Idx(a) < 256
    ensures Alpha(Idx(a)) == a
    ensures Idx(a) == 255 <==> a == 0
  {}

  predicate LogStep(a: bv8)
  {
    Idx(XTime(a)) == if Idx(a) == 254 then 0 else Idx(a) + 1
  }

  lemma LogOfXTime(a: bv8)
    requires a != 0
    ensures LogStep(a)
  {}

  // The log table counts the powers of the primitive element ...
  lemma {:induction false} IdxOfPow(i: nat)
    requires i < 255
    ensures Idx(Pow(i)) == i && Pow(i) != 0
  {
    hide Alpha, Idx, XTime;
    AlphaOfIdx(Pow(i));
    if i == 0 {
      LogOfOne();
    } else {
      IdxOfPow(i - 1);
      LogOfXTime(Pow(i - 1));
    }
  }

  lemma LogOfOne()
    ensures Idx(1) == 0 && XTime(Alpha(254)) == 1
  {}

  // ... and the antilog table holds them.
  lemma AlphaIsPow(i: int)
    requires 0 <= i < 255
    ensures Alpha(i) == Pow(i)
    ensures Idx(Alpha(i)) == i
  {
    hide Alpha, Idx, Pow;
    IdxOfPow(i);
    AlphaOfIdx(Pow(i));
  }

  lemma IdxIsLog(a: bv8)
    requires a != 0
    ensures 0 <= Idx(a) < 255 && a == Pow(Idx(a))
  {
    hide Alpha, Idx, Pow;
    AlphaOfIdx(a);
    AlphaIsPow(Idx(a));
  }

  // The primitive element has order 255.
  lemma {:induction false} PowPeriod(n: nat)
    ensures Pow(n + 255) == Pow(n)
  {
    hide Alpha, Idx, XTime;
    if n == 0 {
      LogOfOne();
      AlphaIsPow(254);
    } else {
      PowPeriod(n - 1);
    }
  }

  lemma {:induction false} PowMod(n: nat)
    ensures Pow(n) == Pow(n % 255)
    decreases n
  {
    hide *;
    if n >= 255 {
      PowPeriod(n - 255);
      PowMod(n - 255);
    }
  }

  // A table access with a reduced exponent is a power.
  lemma AlphaMod(n: nat)
    ensures Alpha(n % 255) == Pow(n)
  {
    hide *;
    AlphaIsPow(n % 255);
    PowMod(n);
  }

  lemma PowNonZero(n: nat)
    ensures Pow(n) != 0
  {
    hide *;
    PowMod(n);
    IdxOfPow(n % 255);
  }

  lemma PowInjective(m: nat, n: nat)
    requires Pow(m) == Pow(n)
    ensures m % 255 == n % 255
  {
    hide *;
    PowMod(m);
    PowMod(n);
    IdxOfPow(m % 255);
    IdxOfPow(n % 255);
  }

  // ----- the field laws -----------------------------------------------------

  lemma XorLaws(a: bv8, b: bv8)
    ensures Xor(a, b) == Xor(b, a)
    ensures Xor(a, 0) == a && Xor(0, a) == a && Xor(a, a) == 0
    ensures Xor(Xor(a, b), b) == a
  {}

  lemma XorAssoc(a: bv8, b: bv8, c: bv8)
    ensures Xor(Xor(a, b), c) == Xor(a, Xor(b, c))
  {}

  lemma XorSwap(a: bv8, b: bv8, c: bv8, d: bv8)
    ensures Xor(Xor(a, b), Xor(c, d)) == Xor(Xor(a, c), Xor(b, d))
  {
    hide Xor;
    XorAssoc(a, b, Xor(c, d));
    XorAssoc(b, c, d);
    XorLaws(b, c);
    XorAssoc(c, b, d);
    XorAssoc(a, c, Xor(b, d));
  }

  lemma XorZero(a: bv8, b: bv8)
    ensures Xor(a, b) == 0 <==> a == b
  {}

  function Doubled(a: bv8): bv8
  {
    a << 1
  }

  predicate Top(a: bv8)
  {
    a & 0x80 != 0
  }

  lemma ShiftXor(a: bv8, b: bv8)
    ensures (a ^ b) << 1 == (a << 1) ^ (b << 1)
  {}

  lemma DoubledXor(a: bv8, b: bv8)
    ensures Doubled(Xor(a, b)) == Xor(Doubled(a), Doubled(b))
  {
    ShiftXor(a, b);
  }

  lemma TopXor(a: bv8, b: bv8)
    ensures Top(Xor(a, b)) == (Top(a) != Top(b))
  {}

  lemma XTimeIs(a: bv8)
    ensures XTime(a) == if Top(a) then Xor(Doubled(a), 0x87) else Doubled(a)
  {}

  lemma XTimeXor(a: bv8, b: bv8)
    ensures XTime(Xor(a, b)) == Xor(XTime(a), XTime(b))
  {
    hide XTime, Xor, Doubled, Top;
    XTimeIs(a);
    XTimeIs(b);
    XTimeIs(Xor(a, b));
    DoubledXor(a, b);
    TopXor(a, b);
    var x, y := Doubled(a), Doubled(b);
    XorAssoc(x, y, 0x87);
    XorLaws(y, 0x87);
    XorAssoc(x, 0x87, y);
    XorSwap(x, 0x87, y, 0x87);
    XorLaws(0x87, 0x87);
    XorLaws(Xor(x, y), 0);
  }

  lemma ChosenLaws(a: bv8, b: bv8)
    ensures Chosen(XTime(a), b) == XTime(Chosen(a, b))
    ensures Chosen(0, b) == 0 && Chosen(a, 0) == 0 && Half(0) == 0 && XTime(0) == 0
  {}

  lemma {:induction false} MulZeroBits(a: bv8, n: nat)
    ensures MulBits(0, a, n) == 0 && MulBits(a, 0, n) == 0
    decreases n
  {
    hide XTime, Chosen, Half, Xor;
    if n > 0 {
      MulZeroBits(XTime(a), n - 1);
      MulZeroBits(Half(a), n - 1);
      ChosenLaws(a, a);
      ChosenLaws(0, a);
      XorLaws(0, 0);
    }
  }

  lemma MulZero(a: bv8)
    ensures Mul(0, a) == 0 && Mul(a, 0) == 0
  {
    hide MulBits;
    MulZeroBits(a, |BYTE|);
  }

  lemma {:induction false} MulXTimeBits(a: bv8, b: bv8, n: nat)
    ensures MulBits(XTime(a), b, n) == XTime(MulBits(a, b, n))
    decreases n
  {
    hide XTime, Chosen, Half, Xor;
    ChosenLaws(a, b);
    if n > 0 {
      MulXTimeBits(XTime(a), Half(b), n - 1);
      XTimeXor(Chosen(a, b), MulBits(XTime(a), Half(b), n - 1));
    }
  }

  lemma MulXTime(a: bv8, b: bv8)
    ensures Mul(XTime(a), b) == XTime(Mul(a, b))
  {
    hide MulBits, XTime;
    MulXTimeBits(a, b, |BYTE|);
  }

  lemma ChosenXor(a: bv8, b: bv8, c: bv8)
    ensures Chosen(a, Xor(b, c)) == Xor(Chosen(a, b), Chosen(a, c))
    ensures Half(Xor(b, c)) == Xor(Half(b), Half(c))
  {}

  lemma {:induction false} MulRightXorBits(a: bv8, b: bv8, c: bv8, n: nat)
    ensures MulBits(a, Xor(b, c), n) == Xor(MulBits(a, b, n), MulBits(a, c, n))
    decreases n
  {
    hide XTime, Chosen, Half, Xor;
    if n == 0 {
      XorLaws(0, 0);
    } else {
      var a1 := XTime(a);
      MulRightXorBits(a1, Half(b), Half(c), n - 1);
      ChosenXor(a, b, c);
      XorSwap(Chosen(a, b), Chosen(a, c), MulBits(a1, Half(b), n - 1), MulBits(a1, Half(c), n - 1));
    }
  }

  lemma MulRightXor(a: bv8, b: bv8, c: bv8)
    ensures Mul(a, Xor(b, c)) == Xor(Mul(a, b), Mul(a, c))
  {
    hide MulBits, Xor;
    MulRightXorBits(a, b, c, |BYTE|);
  }

  // One is neutral on the left, bit by bit: products are linear on the right.
  lemma OneTimesBit(b: bv8)
    requires b == 1 || b == 2 || b == 4 || b == 8 || b == 0x10 || b == 0x20 || b == 0x40 || b == 0x80
    ensures Mul(1, b) == b
  {
    hide Mul;
    OneTimesLowBit();
    OneTimesHighBit();
  }

  lemma OneTimesLowBit()
    ensures Mul(1, 1) == 1 && Mul(1, 2) == 2 && Mul(1, 4) == 4 && Mul(1, 8) == 8
  {
    assert |BYTE| == 8;
  }

  lemma OneTimesHighBit()
    ensures Mul(1, 0x10) == 0x10 && Mul(1, 0x20) == 0x20 && Mul(1, 0x40) == 0x40 && Mul(1, 0x80) == 0x80
  {
    assert |BYTE| == 8;
    assert MulBits(0x10, 4, 4) == 0x40;
    assert MulBits(0x10, 8, 4) == 0x80;
  }

  lemma MaskIsBit(a: bv8, bit: bv8)
    requires bit == 1 || bit == 2 || bit == 4 || bit == 8 || bit == 0x10 || bit == 0x20 || bit == 0x40 || bit == 0x80
    ensures a & bit == 0 || a & bit == bit
  {}

  lemma Masks(a: bv8)
    ensures a == (a & 1) ^ ((a & 2) ^ ((a & 4) ^ ((a & 8) ^ ((a & 0x10) ^ ((a & 0x20) ^ ((a & 0x40) ^ ((a & 0x80) ^ 0)))))))
  {}

  // The masks of a, joined from the lowest of the given bits on.
  function Joined(a: bv8, bits: seq<bv8>): bv8
  {
    if bits == [] then 0 else Xor(a & bits[0], Joined(a, bits[1..]))
  }

  lemma {:induction false} OneTimesJoined(a: bv8, bits: seq<bv8>)
    requires forall i :: 0 <= i < |bits| ==> bits[i] in [1, 2, 4, 8, 0x10, 0x20, 0x40, 0x80]
    ensures Mul(1, Joined(a, bits)) == Joined(a, bits)
  {
    hide Mul, Xor;
    MulZero(1);
    if bits != [] {
      OneTimesJoined(a, bits[1..]);
      MaskIsBit(a, bits[0]);
      OneTimesBit(bits[0]);
      MulRightXor(1, a & bits[0], Joined(a, bits[1..]));
    }
  }

  lemma JoinedStep(a: bv8, bit: bv8, rest: seq<bv8>)
    ensures Joined(a, [bit] + rest) == (a & bit) ^ Joined(a, rest)
  {
    assert ([bit] + rest)[1..] == rest;
  }

  lemma JoinedIsAll(a: bv8)
    ensures Joined(a, [1, 2, 4, 8, 0x10, 0x20, 0x40, 0x80]) == a
  {
    hide Joined;
    var s8: seq<bv8> := [];
    JoinedNone(a);
    var s7 := [0x80] + s8;
    JoinedStep(a, 0x80, s8);
    var s6 := [0x40] + s7;
    JoinedStep(a, 0x40, s7);
    var s5 := [0x20] + s6;
    JoinedStep(a, 0x20, s6);
    var s4 := [0x10] + s5;
    JoinedStep(a, 0x10, s5);
    var s3 := [8] + s4;
    JoinedStep(a, 8, s4);
    var s2 := [4] + s3;
    JoinedStep(a, 4, s3);
    var s1 := [2] + s2;
    JoinedStep(a, 2, s2);
    var s0 := [1] + s1;
    JoinedStep(a, 1, s1);
    assert s0 == [1, 2, 4, 8, 0x10, 0x20, 0x40, 0x80];
    Masks(a);
  }

  lemma JoinedNone(a: bv8)
    ensures Joined(a, []) == 0
  {}

  lemma MulOneLeft(a: bv8)
    ensures Mul(1, a) == a
  {
    hide Mul, Joined;
    JoinedIsAll(a);
    OneTimesJoined(a, [1, 2, 4, 8, 0x10, 0x20, 0x40, 0x80]);
  }

  lemma {:induction false} ShiftShift(a: bv8, m: nat, n: nat)
    ensures Shift(Shift(a, m), n) == Shift(a, m + n)
    decreases n
  {
    hide XTime;
    if n > 0 {
      ShiftShift(a, m, n - 1);
    }
  }

  // Multiplying by a power of the primitive element is repeated shifting.
  lemma {:induction false} MulPow(n: nat, b: bv8)
    ensures Mul(Pow(n), b) == Shift(b, n)
  {
    hide XTime, Mul;
    if n == 0 {
      MulOneLeft(b);
    } else {
      MulPow(n - 1, b);
      MulXTime(Pow(n - 1), b);
    }
  }

  lemma MulPowPow(m: nat, n: nat)
    ensures Mul(Pow(m), Pow(n)) == Pow(m + n)
  {
    hide XTime, Mul, Shift;
    MulPow(m, Pow(n));
    ShiftShift(1, n, m);
  }

  lemma MulComm(a: bv8, b: bv8)
    ensures Mul(a, b) == Mul(b, a)
  {
    hide *;
    MulZero(a);
    MulZero(b);
    if a != 0 && b != 0 {
      IdxIsLog(a);
      IdxIsLog(b);
      MulPowPow(Idx(a), Idx(b));
      MulPowPow(Idx(b), Idx(a));
    }
  }

  lemma MulAssoc(a: bv8, b: bv8, c: bv8)
    ensures Mul(Mul(a, b), c) == Mul(a, Mul(b, c))
  {
    hide *;
    MulZero(a);
    MulZero(b);
    MulZero(c);
    MulZero(Mul(a, b));
    MulZero(Mul(b, c));
    if a != 0 && b != 0 && c != 0 {
      var i, j, k := Idx(a), Idx(b), Idx(c);
      IdxIsLog(a);
      IdxIsLog(b);
      IdxIsLog(c);
      MulPowPow(i, j);
      MulPowPow(j, k);
      MulPowPow(i + j, k);
      MulPowPow(i, j + k);
    }
  }

  lemma MulOne(a: bv8)
    ensures Mul(1, a) == a && Mul(a, 1) == a
  {
    hide *;
    MulOneLeft(a);
    MulComm(a, 1);
  }

  lemma MulLeftXor(a: bv8, b: bv8, c: bv8)
    ensures Mul(Xor(a, b), c) == Xor(Mul(a, c), Mul(b, c))
  {
    hide *;
    MulComm(Xor(a, b), c);
    MulComm(a, c);
    MulComm(b, c);
    MulRightXor(c, a, b);
  }

  lemma MulNonZero(a: bv8, b: bv8)
    requires a != 0 && b != 0
    ensures Mul(a, b) != 0
  {
    hide *;
    IdxIsLog(a);
    IdxIsLog(b);
    MulPowPow(Idx(a), Idx(b));
    PowNonZero(Idx(a) + Idx(b));
  }

  // The product of nonzero factors as the source computes it, through the tables.
  lemma MulByTables(a: bv8, b: bv8)
    requires a != 0 && b != 0
    ensures 0 <= Idx(a) < 255 && 0 <= Idx(b) < 255
    ensures Alpha((Idx(a) + Idx(b)) % 255) == Mul(a, b)
  {
    hide *;
    IdxIsLog(a);
    IdxIsLog(b);
    MulPowPow(Idx(a), Idx(b));
    AlphaMod(Idx(a) + Idx(b));
  }

  // The multiplicative inverse of a nonzero element.
  function Inv(a: bv8): bv8
    requires a != 0
  {
    IdxIsLog(a);
    Pow(255 - Idx(a))
  }

  lemma MulInv(a: bv8)
    requires a != 0
    ensures Mul(a, Inv(a)) == 1 && Inv(a) != 0
  {
    hide Alpha, Idx, Mul, Pow;
    IdxIsLog(a);
    MulPowPow(Idx(a), 255 - Idx(a));
    PowPeriod(0);
    PowNonZero(255 - Idx(a));
    assert Pow(0) == 1 by { PowZero(); }
  }

  lemma PowZero()
    ensures Pow(0) == 1
  {}
}
