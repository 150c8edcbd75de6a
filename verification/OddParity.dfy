/** The odd-parity table (lib/crypto/podd.h) and what it does to keys (lib/crypto/set_key.c). */
module OddParity {
  import opened DesLocal

  /** The exclusive or of the eight bits of a byte. */
  function ParityBit(b: Byte): Byte {
    (b ^ (b >> 1) ^ (b >> 2) ^ (b >> 3) ^ (b >> 4) ^ (b >> 5) ^ (b >> 6) ^ (b >> 7)) & 1
  }

  // The table in eight parts. Every entry has odd parity and differs from
  // its index in the low bit at most.

  function Podd0(b: Byte): (p: Byte)
    requires 0 <= b <= 31
    ensures ParityBit(p) == 1 && p & 0xfe == b & 0xfe
  {
    match b
    case 0 => 1 case 1 => 1 case 2 => 2 case 3 => 2 case 4 => 4 case 5 => 4 case 6 => 7 case 7 => 7
    case 8 => 8 case 9 => 8 case 10 => 11 case 11 => 11 case 12 => 13 case 13 => 13 case 14 => 14 case 15 => 14
    case 16 => 16 case 17 => 16 case 18 => 19 case 19 => 19 case 20 => 21 case 21 => 21 case 22 => 22 case 23 => 22
    case 24 => 25 case 25 => 25 case 26 => 26 case 27 => 26 case 28 => 28 case 29 => 28 case 30 => 31 case _ => 31
  }

  function Podd1(b: Byte): (p: Byte)
    requires 32 <= b <= 63
    ensures ParityBit(p) == 1 && p & 0xfe == b & 0xfe
  {
    match b
    case 32 => 32 case 33 => 32 case 34 => 35 case 35 => 35 case 36 => 37 case 37 => 37 case 38 => 38 case 39 => 38
    case 40 => 41 case 41 => 41 case 42 => 42 case 43 => 42 case 44 => 44 case 45 => 44 case 46 => 47 case 47 => 47
    case 48 => 49 case 49 => 49 case 50 => 50 case 51 => 50 case 52 => 52 case 53 => 52 case 54 => 55 case 55 => 55
    case 56 => 56 case 57 => 56 case 58 => 59 case 59 => 59 case 60 => 61 case 61 => 61 case 62 => 62 case _ => 62
  }

  function Podd2(b: Byte): (p: Byte)
    requires 64 <= b <= 95
    ensures ParityBit(p) == 1 && p & 0xfe == b & 0xfe
  {
    match b
    case 64 => 64 case 65 => 64 case 66 => 67 case 67 => 67 case 68 => 69 case 69 => 69 case 70 => 70 case 71 => 70
    case 72 => 73 case 73 => 73 case 74 => 74 case 75 => 74 case 76 => 76 case 77 => 76 case 78 => 79 case 79 => 79
    case 80 => 81 case 81 => 81 case 82 => 82 case 83 => 82 case 84 => 84 case 85 => 84 case 86 => 87 case 87 => 87
    case 88 => 88 case 89 => 88 case 90 => 91 case 91 => 91 case 92 => 93 case 93 => 93 case 94 => 94 case _ => 94
  }

  function Podd3(b: Byte): (p: Byte)
    requires 96 <= b <= 127
    ensures ParityBit(p) == 1 && p & 0xfe == b & 0xfe
  {
    match b
    case 96 => 97 case 97 => 97 case 98 => 98 case 99 => 98
    case 100 => 100 case 101 => 100 case 102 => 103 case 103 => 103
    case 104 => 104 case 105 => 104 case 106 => 107 case 107 => 107
    case 108 => 109 case 109 => 109 case 110 => 110 case 111 => 110
    case 112 => 112 case 113 => 112 case 114 => 115 case 115 => 115
    case 116 => 117 case 117 => 117 case 118 => 118 case 119 => 118
    case 120 => 121 case 121 => 121 case 122 => 122 case 123 => 122
    case 124 => 124 case 125 => 124 case 126 => 127 case _ => 127
  }

  function Podd4(b: Byte): (p: Byte)
    requires 128 <= b <= 159
    ensures ParityBit(p) == 1 && p & 0xfe == b & 0xfe
  {
    match b
    case 128 => 128 case 129 => 128 case 130 => 131 case 131 => 131
    case 132 => 133 case 133 => 133 case 134 => 134 case 135 => 134
    case 136 => 137 case 137 => 137 case 138 => 138 case 139 => 138
    case 140 => 140 case 141 => 140 case 142 => 143 case 143 => 143
    case 144 => 145 case 145 => 145 case 146 => 146 case 147 => 146
    case 148 => 148 case 149 => 148 case 150 => 151 case 151 => 151
    case 152 => 152 case 153 => 152 case 154 => 155 case 155 => 155
    case 156 => 157 case 157 => 157 case 158 => 158 case _ => 158
  }

  function Podd5(b: Byte): (p: Byte)
    requires 160 <= b <= 191
    ensures ParityBit(p) == 1 && p & 0xfe == b & 0xfe
  {
    match b
    case 160 => 161 case 161 => 161 case 162 => 162 case 163 => 162
    case 164 => 164 case 165 => 164 case 166 => 167 case 167 => 167
    case 168 => 168 case 169 => 168 case 170 => 171 case 171 => 171
    case 172 => 173 case 173 => 173 case 174 => 174 case 175 => 174
    case 176 => 176 case 177 => 176 case 178 => 179 case 179 => 179
    case 180 => 181 case 181 => 181 case 182 => 182 case 183 => 182
    case 184 => 185 case 185 => 185 case 186 => 186 case 187 => 186
    case 188 => 188 case 189 => 188 case 190 => 191 case _ => 191
  }

  function Podd6(b: Byte): (p: Byte)
    requires 192 <= b <= 223
    ensures ParityBit(p) == 1 && p & 0xfe == b & 0xfe
  {
    match b
    case 192 => 193 case 193 => 193 case 194 => 194 case 195 => 194
    case 196 => 196 case 197 => 196 case 198 => 199 case 199 => 199
    case 200 => 200 case 201 => 200 case 202 => 203 case 203 => 203
    case 204 => 205 case 205 => 205 case 206 => 206 case 207 => 206
    case 208 => 208 case 209 => 208 case 210 => 211 case 211 => 211
    case 212 => 213 case 213 => 213 case 214 => 214 case 215 => 214
    case 216 => 217 case 217 => 217 case 218 => 218 case 219 => 218
    case 220 => 220 case 221 => 220 case 222 => 223 case _ => 223
  }

  function Podd7(b: Byte): (p: Byte)
    requires 224 <= b <= 255
    ensures ParityBit(p) == 1 && p & 0xfe == b & 0xfe
  {
    match b
    case 224 => 224 case 225 => 224 case 226 => 227 case 227 => 227
    case 228 => 229 case 229 => 229 case 230 => 230 case 231 => 230
    case 232 => 233 case 233 => 233 case 234 => 234 case 235 => 234
    case 236 => 236 case 237 => 236 case 238 => 239 case 239 => 239
    case 240 => 241 case 241 => 241 case 242 => 242 case 243 => 242
    case 244 => 244 case 245 => 244 case 246 => 247 case 247 => 247
    case 248 => 248 case 249 => 248 case 250 => 251 case 251 => 251
    case 252 => 253 case 253 => 253 case 254 => 254 case _ => 254
  }

  function odd_parity(b: Byte): (p: Byte)
    ensures ParityBit(p) == 1 && p & 0xfe == b & 0xfe
  {
    if b <= 31 then Podd0(b) else if b <= 63 then Podd1(b) else if b <= 95 then Podd2(b) else if b <= 127 then Podd3(b)
    else if b <= 159 then Podd4(b) else if b <= 191 then Podd5(b) else if b <= 223 then Podd6(b) else Podd7(b)
  }

  predicate AllOdd(key: seq<Byte>) {
    forall i | 0 <= i < |key| :: ParityBit(key[i]) == 1
  }

  /** The table leaves exactly the bytes of odd parity alone. */
  lemma OddStays(b: Byte)
    ensures odd_parity(b) == b <==> ParityBit(b) == 1
  {
    hide odd_parity;
    OddIsUnique(odd_parity(b), b);
  }

  lemma OddIsUnique(p: Byte, b: Byte)
    requires ParityBit(p) == 1 && p & 0xfe == b & 0xfe
    ensures p == b <==> ParityBit(b) == 1
  {
  }
}
