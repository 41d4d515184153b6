/**
 * Arithmetic modulo 255, the order of the multiplicative group of
 * GF(2^8): logarithms are added and subtracted modulo 255.
 */
module Mod255 {
  lemma ModShift(m: int, q: int)
    ensures (m + 255 * q) % 255 == m % 255
  {
  }

  lemma ModAdd(x: int, y: int)
    ensures (x % 255 + y) % 255 == (x + y) % 255
  {
    ModShift(x % 255 + y, x / 255);
  }

  /** Subtracting y and adding it back leaves a residue unchanged. */
  lemma ModCancel(x: int, y: int)
    requires 0 <= x < 255 && 0 <= y < 255
    ensures ((x - y) % 255 + y) % 255 == x
  {
    ModAdd(x - y, y);
  }
}

/**
 * Arithmetic in GF(2^8) as the Shamir implementation does it: addition is
 * XOR, multiplication and division go through an exponent table (powers of
 * the generator 3) and a logarithm table, for the reduction polynomial
 * x^8 + x^4 + x^3 + x + 1 that AES uses.  Field elements are bytes.
 *
 * The two hard-coded tables are `ExpTable` and `LogTable`.  They are proved
 * to hold 3^k and the discrete logarithm (`ExpTableMatches`,
 * `LogTableMatches`), where 3^k is `Exp`, repeated multiplication by 3, and
 * the logarithm is `Log`, the least exponent that gives the byte.  The field
 * operations read the tables through these characterisations, and the field
 * laws follow: multiplying by 3^k is k-fold multiplication by 3, which is
 * XOR-linear, and that gives distributivity.
 */
module GF256 {
  import opened Outcomes
  import opened Mod255

  /** _GF256_EXP: entry k is 3^k.  Entry 255 repeats entry 0. */
  function ExpTable(k: int): bv8
    requires 0 <= k < 256
  {
    (if k < 128 then
      (if k < 64 then
        (if k < 32 then
          (if k < 16 then
            (if k < 8 then
              (if k < 4 then
                (if k < 2 then
                  (if k < 1 then 0x01 else 0x03)
                 else
                  (if k < 3 then 0x05 else 0x0f))
               else
                (if k < 6 then
                  (if k < 5 then 0x11 else 0x33)
                 else
                  (if k < 7 then 0x55 else 0xff)))
             else
              (if k < 12 then
                (if k < 10 then
                  (if k < 9 then 0x1a else 0x2e)
                 else
                  (if k < 11 then 0x72 else 0x96))
               else
                (if k < 14 then
                  (if k < 13 then 0xa1 else 0xf8)
                 else
                  (if k < 15 then 0x13 else 0x35))))
           else
            (if k < 24 then
              (if k < 20 then
                (if k < 18 then
                  (if k < 17 then 0x5f else 0xe1)
                 else
                  (if k < 19 then 0x38 else 0x48))
               else
                (if k < 22 then
                  (if k < 21 then 0xd8 else 0x73)
                 else
                  (if k < 23 then 0x95 else 0xa4)))
             else
              (if k < 28 then
                (if k < 26 then
                  (if k < 25 then 0xf7 else 0x02)
                 else
                  (if k < 27 then 0x06 else 0x0a))
               else
                (if k < 30 then
                  (if k < 29 then 0x1e else 0x22)
                 else
                  (if k < 31 then 0x66 else 0xaa)))))
         else
          (if k < 48 then
            (if k < 40 then
              (if k < 36 then
                (if k < 34 then
                  (if k < 33 then 0xe5 else 0x34)
                 else
                  (if k < 35 then 0x5c else 0xe4))
               else
                (if k < 38 then
                  (if k < 37 then 0x37 else 0x59)
                 else
                  (if k < 39 then 0xeb else 0x26)))
             else
              (if k < 44 then
                (if k < 42 then
                  (if k < 41 then 0x6a else 0xbe)
                 else
                  (if k < 43 then 0xd9 else 0x70))
               else
                (if k < 46 then
                  (if k < 45 then 0x90 else 0xab)
                 else
                  (if k < 47 then 0xe6 else 0x31))))
           else
            (if k < 56 then
              (if k < 52 then
                (if k < 50 then
                  (if k < 49 then 0x53 else 0xf5)
                 else
                  (if k < 51 then 0x04 else 0x0c))
               else
                (if k < 54 then
                  (if k < 53 then 0x14 else 0x3c)
                 else
                  (if k < 55 then 0x44 else 0xcc)))
             else
              (if k < 60 then
                (if k < 58 then
                  (if k < 57 then 0x4f else 0xd1)
                 else
                  (if k < 59 then 0x68 else 0xb8))
               else
                (if k < 62 then
                  (if k < 61 then 0xd3 else 0x6e)
                 else
                  (if k < 63 then 0xb2 else 0xcd))))))
       else
        (if k < 96 then
          (if k < 80 then
            (if k < 72 then
              (if k < 68 then
                (if k < 66 then
                  (if k < 65 then 0x4c else 0xd4)
                 else
                  (if k < 67 then 0x67 else 0xa9))
               else
                (if k < 70 then
                  (if k < 69 then 0xe0 else 0x3b)
                 else
                  (if k < 71 then 0x4d else 0xd7)))
             else
              (if k < 76 then
                (if k < 74 then
                  (if k < 73 then 0x62 else 0xa6)
                 else
                  (if k < 75 then 0xf1 else 0x08))
               else
                (if k < 78 then
                  (if k < 77 then 0x18 else 0x28)
                 else
                  (if k < 79 then 0x78 else 0x88))))
           else
            (if k < 88 then
              (if k < 84 then
                (if k < 82 then
                  (if k < 81 then 0x83 else 0x9e)
                 else
                  (if k < 83 then 0xb9 else 0xd0))
               else
                (if k < 86 then
                  (if k < 85 then 0x6b else 0xbd)
                 else
                  (if k < 87 then 0xdc else 0x7f)))
             else
              (if k < 92 then
                (if k < 90 then
                  (if k < 89 then 0x81 else 0x98)
                 else
                  (if k < 91 then 0xb3 else 0xce))
               else
                (if k < 94 then
                  (if k < 93 then 0x49 else 0xdb)
                 else
                  (if k < 95 then 0x76 else 0x9a)))))
         else
          (if k < 112 then
            (if k < 104 then
              (if k < 100 then
                (if k < 98 then
                  (if k < 97 then 0xb5 else 0xc4)
                 else
                  (if k < 99 then 0x57 else 0xf9))
               else
                (if k < 102 then
                  (if k < 101 then 0x10 else 0x30)
                 else
                  (if k < 103 then 0x50 else 0xf0)))
             else
              (if k < 108 then
                (if k < 106 then
                  (if k < 105 then 0x0b else 0x1d)
                 else
                  (if k < 107 then 0x27 else 0x69))
               else
                (if k < 110 then
                  (if k < 109 then 0xbb else 0xd6)
                 else
                  (if k < 111 then 0x61 else 0xa3))))
           else
            (if k < 120 then
              (if k < 116 then
                (if k < 114 then
                  (if k < 113 then 0xfe else 0x19)
                 else
                  (if k < 115 then 0x2b else 0x7d))
               else
                (if k < 118 then
                  (if k < 117 then 0x87 else 0x92)
                 else
                  (if k < 119 then 0xad else 0xec)))
             else
              (if k < 124 then
                (if k < 122 then
                  (if k < 121 then 0x2f else 0x71)
                 else
                  (if k < 123 then 0x93 else 0xae))
               else
                (if k < 126 then
                  (if k < 125 then 0xe9 else 0x20)
                 else
                  (if k < 127 then 0x60 else 0xa0)))))))
     else
      (if k < 192 then
        (if k < 160 then
          (if k < 144 then
            (if k < 136 then
              (if k < 132 then
                (if k < 130 then
                  (if k < 129 then 0xfb else 0x16)
                 else
                  (if k < 131 then 0x3a else 0x4e))
               else
                (if k < 134 then
                  (if k < 133 then 0xd2 else 0x6d)
                 else
                  (if k < 135 then 0xb7 else 0xc2)))
             else
              (if k < 140 then
                (if k < 138 then
                  (if k < 137 then 0x5d else 0xe7)
                 else
                  (if k < 139 then 0x32 else 0x56))
               else
                (if k < 142 then
                  (if k < 141 then 0xfa else 0x15)
                 else
                  (if k < 143 then 0x3f else 0x41))))
           else
            (if k < 152 then
              (if k < 148 then
                (if k < 146 then
                  (if k < 145 then 0xc3 else 0x5e)
                 else
                  (if k < 147 then 0xe2 else 0x3d))
               else
                (if k < 150 then
                  (if k < 149 then 0x47 else 0xc9)
                 else
                  (if k < 151 then 0x40 else 0xc0)))
             else
              (if k < 156 then
                (if k < 154 then
                  (if k < 153 then 0x5b else 0xed)
                 else
                  (if k < 155 then 0x2c else 0x74))
               else
                (if k < 158 then
                  (if k < 157 then 0x9c else 0xbf)
                 else
                  (if k < 159 then 0xda else 0x75)))))
         else
          (if k < 176 then
            (if k < 168 then
              (if k < 164 then
                (if k < 162 then
                  (if k < 161 then 0x9f else 0xba)
                 else
                  (if k < 163 then 0xd5 else 0x64))
               else
                (if k < 166 then
                  (if k < 165 then 0xac else 0xef)
                 else
                  (if k < 167 then 0x2a else 0x7e)))
             else
              (if k < 172 then
                (if k < 170 then
                  (if k < 169 then 0x82 else 0x9d)
                 else
                  (if k < 171 then 0xbc else 0xdf))
               else
                (if k < 174 then
                  (if k < 173 then 0x7a else 0x8e)
                 else
                  (if k < 175 then 0x89 else 0x80))))
           else
            (if k < 184 then
              (if k < 180 then
                (if k < 178 then
                  (if k < 177 then 0x9b else 0xb6)
                 else
                  (if k < 179 then 0xc1 else 0x58))
               else
                (if k < 182 then
                  (if k < 181 then 0xe8 else 0x23)
                 else
                  (if k < 183 then 0x65 else 0xaf)))
             else
              (if k < 188 then
                (if k < 186 then
                  (if k < 185 then 0xea else 0x25)
                 else
                  (if k < 187 then 0x6f else 0xb1))
               else
                (if k < 190 then
                  (if k < 189 then 0xc8 else 0x43)
                 else
                  (if k < 191 then 0xc5 else 0x54))))))
       else
        (if k < 224 then
          (if k < 208 then
            (if k < 200 then
              (if k < 196 then
                (if k < 194 then
                  (if k < 193 then 0xfc else 0x1f)
                 else
                  (if k < 195 then 0x21 else 0x63))
               else
                (if k < 198 then
                  (if k < 197 then 0xa5 else 0xf4)
                 else
                  (if k < 199 then 0x07 else 0x09)))
             else
              (if k < 204 then
                (if k < 202 then
                  (if k < 201 then 0x1b else 0x2d)
                 else
                  (if k < 203 then 0x77 else 0x99))
               else
                (if k < 206 then
                  (if k < 205 then 0xb0 else 0xcb)
                 else
                  (if k < 207 then 0x46 else 0xca))))
           else
            (if k < 216 then
              (if k < 212 then
                (if k < 210 then
                  (if k < 209 then 0x45 else 0xcf)
                 else
                  (if k < 211 then 0x4a else 0xde))
               else
                (if k < 214 then
                  (if k < 213 then 0x79 else 0x8b)
                 else
                  (if k < 215 then 0x86 else 0x91)))
             else
              (if k < 220 then
                (if k < 218 then
                  (if k < 217 then 0xa8 else 0xe3)
                 else
                  (if k < 219 then 0x3e else 0x42))
               else
                (if k < 222 then
                  (if k < 221 then 0xc6 else 0x51)
                 else
                  (if k < 223 then 0xf3 else 0x0e)))))
         else
          (if k < 240 then
            (if k < 232 then
              (if k < 228 then
                (if k < 226 then
                  (if k < 225 then 0x12 else 0x36)
                 else
                  (if k < 227 then 0x5a else 0xee))
               else
                (if k < 230 then
                  (if k < 229 then 0x29 else 0x7b)
                 else
                  (if k < 231 then 0x8d else 0x8c)))
             else
              (if k < 236 then
                (if k < 234 then
                  (if k < 233 then 0x8f else 0x8a)
                 else
                  (if k < 235 then 0x85 else 0x94))
               else
                (if k < 238 then
                  (if k < 237 then 0xa7 else 0xf2)
                 else
                  (if k < 239 then 0x0d else 0x17))))
           else
            (if k < 248 then
              (if k < 244 then
                (if k < 242 then
                  (if k < 241 then 0x39 else 0x4b)
                 else
                  (if k < 243 then 0xdd else 0x7c))
               else
                (if k < 246 then
                  (if k < 245 then 0x84 else 0x97)
                 else
                  (if k < 247 then 0xa2 else 0xfd)))
             else
              (if k < 252 then
                (if k < 250 then
                  (if k < 249 then 0x1c else 0x24)
                 else
                  (if k < 251 then 0x6c else 0xb4))
               else
                (if k < 254 then
                  (if k < 253 then 0xc7 else 0x52)
                 else
                  (if k < 255 then 0xf6 else 0x01))))))))
  }

  /**
   * _GF256_LOG, indexed by a byte: entry 3^k is k.  Entry 0 is an unused
   * placeholder 0.
   */
  function LogTable(a: bv8): int {
    (if a < 128 then
      (if a < 64 then
        (if a < 32 then
          (if a < 16 then
            (if a < 8 then
              (if a < 4 then
                (if a < 2 then
                  (if a < 1 then 0x00 else 0x00)
                 else
                  (if a < 3 then 0x19 else 0x01))
               else
                (if a < 6 then
                  (if a < 5 then 0x32 else 0x02)
                 else
                  (if a < 7 then 0x1a else 0xc6)))
             else
              (if a < 12 then
                (if a < 10 then
                  (if a < 9 then 0x4b else 0xc7)
                 else
                  (if a < 11 then 0x1b else 0x68))
               else
                (if a < 14 then
                  (if a < 13 then 0x33 else 0xee)
                 else
                  (if a < 15 then 0xdf else 0x03))))
           else
            (if a < 24 then
              (if a < 20 then
                (if a < 18 then
                  (if a < 17 then 0x64 else 0x04)
                 else
                  (if a < 19 then 0xe0 else 0x0e))
               else
                (if a < 22 then
                  (if a < 21 then 0x34 else 0x8d)
                 else
                  (if a < 23 then 0x81 else 0xef)))
             else
              (if a < 28 then
                (if a < 26 then
                  (if a < 25 then 0x4c else 0x71)
                 else
                  (if a < 27 then 0x08 else 0xc8))
               else
                (if a < 30 then
                  (if a < 29 then 0xf8 else 0x69)
                 else
                  (if a < 31 then 0x1c else 0xc1)))))
         else
          (if a < 48 then
            (if a < 40 then
              (if a < 36 then
                (if a < 34 then
                  (if a < 33 then 0x7d else 0xc2)
                 else
                  (if a < 35 then 0x1d else 0xb5))
               else
                (if a < 38 then
                  (if a < 37 then 0xf9 else 0xb9)
                 else
                  (if a < 39 then 0x27 else 0x6a)))
             else
              (if a < 44 then
                (if a < 42 then
                  (if a < 41 then 0x4d else 0xe4)
                 else
                  (if a < 43 then 0xa6 else 0x72))
               else
                (if a < 46 then
                  (if a < 45 then 0x9a else 0xc9)
                 else
                  (if a < 47 then 0x09 else 0x78))))
           else
            (if a < 56 then
              (if a < 52 then
                (if a < 50 then
                  (if a < 49 then 0x65 else 0x2f)
                 else
                  (if a < 51 then 0x8a else 0x05))
               else
                (if a < 54 then
                  (if a < 53 then 0x21 else 0x0f)
                 else
                  (if a < 55 then 0xe1 else 0x24)))
             else
              (if a < 60 then
                (if a < 58 then
                  (if a < 57 then 0x12 else 0xf0)
                 else
                  (if a < 59 then 0x82 else 0x45))
               else
                (if a < 62 then
                  (if a < 61 then 0x35 else 0x93)
                 else
                  (if a < 63 then 0xda else 0x8e))))))
       else
        (if a < 96 then
          (if a < 80 then
            (if a < 72 then
              (if a < 68 then
                (if a < 66 then
                  (if a < 65 then 0x96 else 0x8f)
                 else
                  (if a < 67 then 0xdb else 0xbd))
               else
                (if a < 70 then
                  (if a < 69 then 0x36 else 0xd0)
                 else
                  (if a < 71 then 0xce else 0x94)))
             else
              (if a < 76 then
                (if a < 74 then
                  (if a < 73 then 0x13 else 0x5c)
                 else
                  (if a < 75 then 0xd2 else 0xf1))
               else
                (if a < 78 then
                  (if a < 77 then 0x40 else 0x46)
                 else
                  (if a < 79 then 0x83 else 0x38))))
           else
            (if a < 88 then
              (if a < 84 then
                (if a < 82 then
                  (if a < 81 then 0x66 else 0xdd)
                 else
                  (if a < 83 then 0xfd else 0x30))
               else
                (if a < 86 then
                  (if a < 85 then 0xbf else 0x06)
                 else
                  (if a < 87 then 0x8b else 0x62)))
             else
              (if a < 92 then
                (if a < 90 then
                  (if a < 89 then 0xb3 else 0x25)
                 else
                  (if a < 91 then 0xe2 else 0x98))
               else
                (if a < 94 then
                  (if a < 93 then 0x22 else 0x88)
                 else
                  (if a < 95 then 0x91 else 0x10)))))
         else
          (if a < 112 then
            (if a < 104 then
              (if a < 100 then
                (if a < 98 then
                  (if a < 97 then 0x7e else 0x6e)
                 else
                  (if a < 99 then 0x48 else 0xc3))
               else
                (if a < 102 then
                  (if a < 101 then 0xa3 else 0xb6)
                 else
                  (if a < 103 then 0x1e else 0x42)))
             else
              (if a < 108 then
                (if a < 106 then
                  (if a < 105 then 0x3a else 0x6b)
                 else
                  (if a < 107 then 0x28 else 0x54))
               else
                (if a < 110 then
                  (if a < 109 then 0xfa else 0x85)
                 else
                  (if a < 111 then 0x3d else 0xba))))
           else
            (if a < 120 then
              (if a < 116 then
                (if a < 114 then
                  (if a < 113 then 0x2b else 0x79)
                 else
                  (if a < 115 then 0x0a else 0x15))
               else
                (if a < 118 then
                  (if a < 117 then 0x9b else 0x9f)
                 else
                  (if a < 119 then 0x5e else 0xca)))
             else
              (if a < 124 then
                (if a < 122 then
                  (if a < 121 then 0x4e else 0xd4)
                 else
                  (if a < 123 then 0xac else 0xe5))
               else
                (if a < 126 then
                  (if a < 125 then 0xf3 else 0x73)
                 else
                  (if a < 127 then 0xa7 else 0x57)))))))
     else
      (if a < 192 then
        (if a < 160 then
          (if a < 144 then
            (if a < 136 then
              (if a < 132 then
                (if a < 130 then
                  (if a < 129 then 0xaf else 0x58)
                 else
                  (if a < 131 then 0xa8 else 0x50))
               else
                (if a < 134 then
                  (if a < 133 then 0xf4 else 0xea)
                 else
                  (if a < 135 then 0xd6 else 0x74)))
             else
              (if a < 140 then
                (if a < 138 then
                  (if a < 137 then 0x4f else 0xae)
                 else
                  (if a < 139 then 0xe9 else 0xd5))
               else
                (if a < 142 then
                  (if a < 141 then 0xe7 else 0xe6)
                 else
                  (if a < 143 then 0xad else 0xe8))))
           else
            (if a < 152 then
              (if a < 148 then
                (if a < 146 then
                  (if a < 145 then 0x2c else 0xd7)
                 else
                  (if a < 147 then 0x75 else 0x7a))
               else
                (if a < 150 then
                  (if a < 149 then 0xeb else 0x16)
                 else
                  (if a < 151 then 0x0b else 0xf5)))
             else
              (if a < 156 then
                (if a < 154 then
                  (if a < 153 then 0x59 else 0xcb)
                 else
                  (if a < 155 then 0x5f else 0xb0))
               else
                (if a < 158 then
                  (if a < 157 then 0x9c else 0xa9)
                 else
                  (if a < 159 then 0x51 else 0xa0)))))
         else
          (if a < 176 then
            (if a < 168 then
              (if a < 164 then
                (if a < 162 then
                  (if a < 161 then 0x7f else 0x0c)
                 else
                  (if a < 163 then 0xf6 else 0x6f))
               else
                (if a < 166 then
                  (if a < 165 then 0x17 else 0xc4)
                 else
                  (if a < 167 then 0x49 else 0xec)))
             else
              (if a < 172 then
                (if a < 170 then
                  (if a < 169 then 0xd8 else 0x43)
                 else
                  (if a < 171 then 0x1f else 0x2d))
               else
                (if a < 174 then
                  (if a < 173 then 0xa4 else 0x76)
                 else
                  (if a < 175 then 0x7b else 0xb7))))
           else
            (if a < 184 then
              (if a < 180 then
                (if a < 178 then
                  (if a < 177 then 0xcc else 0xbb)
                 else
                  (if a < 179 then 0x3e else 0x5a))
               else
                (if a < 182 then
                  (if a < 181 then 0xfb else 0x60)
                 else
                  (if a < 183 then 0xb1 else 0x86)))
             else
              (if a < 188 then
                (if a < 186 then
                  (if a < 185 then 0x3b else 0x52)
                 else
                  (if a < 187 then 0xa1 else 0x6c))
               else
                (if a < 190 then
                  (if a < 189 then 0xaa else 0x55)
                 else
                  (if a < 191 then 0x29 else 0x9d))))))
       else
        (if a < 224 then
          (if a < 208 then
            (if a < 200 then
              (if a < 196 then
                (if a < 194 then
                  (if a < 193 then 0x97 else 0xb2)
                 else
                  (if a < 195 then 0x87 else 0x90))
               else
                (if a < 198 then
                  (if a < 197 then 0x61 else 0xbe)
                 else
                  (if a < 199 then 0xdc else 0xfc)))
             else
              (if a < 204 then
                (if a < 202 then
                  (if a < 201 then 0xbc else 0x95)
                 else
                  (if a < 203 then 0xcf else 0xcd))
               else
                (if a < 206 then
                  (if a < 205 then 0x37 else 0x3f)
                 else
                  (if a < 207 then 0x5b else 0xd1))))
           else
            (if a < 216 then
              (if a < 212 then
                (if a < 210 then
                  (if a < 209 then 0x53 else 0x39)
                 else
                  (if a < 211 then 0x84 else 0x3c))
               else
                (if a < 214 then
                  (if a < 213 then 0x41 else 0xa2)
                 else
                  (if a < 215 then 0x6d else 0x47)))
             else
              (if a < 220 then
                (if a < 218 then
                  (if a < 217 then 0x14 else 0x2a)
                 else
                  (if a < 219 then 0x9e else 0x5d))
               else
                (if a < 222 then
                  (if a < 221 then 0x56 else 0xf2)
                 else
                  (if a < 223 then 0xd3 else 0xab)))))
         else
          (if a < 240 then
            (if a < 232 then
              (if a < 228 then
                (if a < 226 then
                  (if a < 225 then 0x44 else 0x11)
                 else
                  (if a < 227 then 0x92 else 0xd9))
               else
                (if a < 230 then
                  (if a < 229 then 0x23 else 0x20)
                 else
                  (if a < 231 then 0x2e else 0x89)))
             else
              (if a < 236 then
                (if a < 234 then
                  (if a < 233 then 0xb4 else 0x7c)
                 else
                  (if a < 235 then 0xb8 else 0x26))
               else
                (if a < 238 then
                  (if a < 237 then 0x77 else 0x99)
                 else
                  (if a < 239 then 0xe3 else 0xa5))))
           else
            (if a < 248 then
              (if a < 244 then
                (if a < 242 then
                  (if a < 241 then 0x67 else 0x4a)
                 else
                  (if a < 243 then 0xed else 0xde))
               else
                (if a < 246 then
                  (if a < 245 then 0xc5 else 0x31)
                 else
                  (if a < 247 then 0xfe else 0x18)))
             else
              (if a < 252 then
                (if a < 250 then
                  (if a < 249 then 0x0d else 0x63)
                 else
                  (if a < 251 then 0x8c else 0x80))
               else
                (if a < 254 then
                  (if a < 253 then 0xc0 else 0xf7)
                 else
                  (if a < 255 then 0x70 else 0x07))))))))
  }

  /** Multiplication by the polynomial x, reduced modulo 0x11b. */
  function Xtime(a: bv8): bv8 {
    if a & 0x80 == 0 then a << 1 else (a << 1) ^ 0x1b
  }

  /** Multiplication by the generator 3, that is by x + 1. */
  function Times3(a: bv8): bv8 {
    a ^ Xtime(a)
  }

  /** 3^n in the field. */
  function Exp(n: nat): bv8 {
    if n == 0 then 1 else Times3(Exp(n - 1))
  }

  /** The least exponent below 255, from `n` on, at which 3 reaches a; 0 if none. */
  function LogFrom(a: bv8, n: nat): nat
    decreases 255 - n
  {
    if n >= 255 then 0
    else if Exp(n) == a then n
    else LogFrom(a, n + 1)
  }

  /** The discrete logarithm to base 3; 0 for the byte 0. */
  function Log(a: bv8): nat {
    LogFrom(a, 0)
  }

  // ---------------------------------------------------------------------
  // Facts about the hard-coded tables, checked entry by entry

  lemma ExpStep0(k: int)
    requires 0 <= k < 32
    ensures ExpTable(k + 1) == Times3(ExpTable(k))
  {
    if k < 16 {
      if k < 8 {
        if k < 4 {
          if k < 2 {
            if k < 1 {
              assert ExpTable(1) == Times3(ExpTable(0));
            } else {
              assert ExpTable(2) == Times3(ExpTable(1));
            }
          } else {
            if k < 3 {
              assert ExpTable(3) == Times3(ExpTable(2));
            } else {
              assert ExpTable(4) == Times3(ExpTable(3));
            }
          }
        } else {
          if k < 6 {
            if k < 5 {
              assert ExpTable(5) == Times3(ExpTable(4));
            } else {
              assert ExpTable(6) == Times3(ExpTable(5));
            }
          } else {
            if k < 7 {
              assert ExpTable(7) == Times3(ExpTable(6));
            } else {
              assert ExpTable(8) == Times3(ExpTable(7));
            }
          }
        }
      } else {
        if k < 12 {
          if k < 10 {
            if k < 9 {
              assert ExpTable(9) == Times3(ExpTable(8));
            } else {
              assert ExpTable(10) == Times3(ExpTable(9));
            }
          } else {
            if k < 11 {
              assert ExpTable(11) == Times3(ExpTable(10));
            } else {
              assert ExpTable(12) == Times3(ExpTable(11));
            }
          }
        } else {
          if k < 14 {
            if k < 13 {
              assert ExpTable(13) == Times3(ExpTable(12));
            } else {
              assert ExpTable(14) == Times3(ExpTable(13));
            }
          } else {
            if k < 15 {
              assert ExpTable(15) == Times3(ExpTable(14));
            } else {
              assert ExpTable(16) == Times3(ExpTable(15));
            }
          }
        }
      }
    } else {
      if k < 24 {
        if k < 20 {
          if k < 18 {
            if k < 17 {
              assert ExpTable(17) == Times3(ExpTable(16));
            } else {
              assert ExpTable(18) == Times3(ExpTable(17));
            }
          } else {
            if k < 19 {
              assert ExpTable(19) == Times3(ExpTable(18));
            } else {
              assert ExpTable(20) == Times3(ExpTable(19));
            }
          }
        } else {
          if k < 22 {
            if k < 21 {
              assert ExpTable(21) == Times3(ExpTable(20));
            } else {
              assert ExpTable(22) == Times3(ExpTable(21));
            }
          } else {
            if k < 23 {
              assert ExpTable(23) == Times3(ExpTable(22));
            } else {
              assert ExpTable(24) == Times3(ExpTable(23));
            }
          }
        }
      } else {
        if k < 28 {
          if k < 26 {
            if k < 25 {
              assert ExpTable(25) == Times3(ExpTable(24));
            } else {
              assert ExpTable(26) == Times3(ExpTable(25));
            }
          } else {
            if k < 27 {
              assert ExpTable(27) == Times3(ExpTable(26));
            } else {
              assert ExpTable(28) == Times3(ExpTable(27));
            }
          }
        } else {
          if k < 30 {
            if k < 29 {
              assert ExpTable(29) == Times3(ExpTable(28));
            } else {
              assert ExpTable(30) == Times3(ExpTable(29));
            }
          } else {
            if k < 31 {
              assert ExpTable(31) == Times3(ExpTable(30));
            } else {
              assert ExpTable(32) == Times3(ExpTable(31));
            }
          }
        }
      }
    }
  }

  lemma ExpStep32(k: int)
    requires 32 <= k < 64
    ensures ExpTable(k + 1) == Times3(ExpTable(k))
  {
    if k < 48 {
      if k < 40 {
        if k < 36 {
          if k < 34 {
            if k < 33 {
              assert ExpTable(33) == Times3(ExpTable(32));
            } else {
              assert ExpTable(34) == Times3(ExpTable(33));
            }
          } else {
            if k < 35 {
              assert ExpTable(35) == Times3(ExpTable(34));
            } else {
              assert ExpTable(36) == Times3(ExpTable(35));
            }
          }
        } else {
          if k < 38 {
            if k < 37 {
              assert ExpTable(37) == Times3(ExpTable(36));
            } else {
              assert ExpTable(38) == Times3(ExpTable(37));
            }
          } else {
            if k < 39 {
              assert ExpTable(39) == Times3(ExpTable(38));
            } else {
              assert ExpTable(40) == Times3(ExpTable(39));
            }
          }
        }
      } else {
        if k < 44 {
          if k < 42 {
            if k < 41 {
              assert ExpTable(41) == Times3(ExpTable(40));
            } else {
              assert ExpTable(42) == Times3(ExpTable(41));
            }
          } else {
            if k < 43 {
              assert ExpTable(43) == Times3(ExpTable(42));
            } else {
              assert ExpTable(44) == Times3(ExpTable(43));
            }
          }
        } else {
          if k < 46 {
            if k < 45 {
              assert ExpTable(45) == Times3(ExpTable(44));
            } else {
              assert ExpTable(46) == Times3(ExpTable(45));
            }
          } else {
            if k < 47 {
              assert ExpTable(47) == Times3(ExpTable(46));
            } else {
              assert ExpTable(48) == Times3(ExpTable(47));
            }
          }
        }
      }
    } else {
      if k < 56 {
        if k < 52 {
          if k < 50 {
            if k < 49 {
              assert ExpTable(49) == Times3(ExpTable(48));
            } else {
              assert ExpTable(50) == Times3(ExpTable(49));
            }
          } else {
            if k < 51 {
              assert ExpTable(51) == Times3(ExpTable(50));
            } else {
              assert ExpTable(52) == Times3(ExpTable(51));
            }
          }
        } else {
          if k < 54 {
            if k < 53 {
              assert ExpTable(53) == Times3(ExpTable(52));
            } else {
              assert ExpTable(54) == Times3(ExpTable(53));
            }
          } else {
            if k < 55 {
              assert ExpTable(55) == Times3(ExpTable(54));
            } else {
              assert ExpTable(56) == Times3(ExpTable(55));
            }
          }
        }
      } else {
        if k < 60 {
          if k < 58 {
            if k < 57 {
              assert ExpTable(57) == Times3(ExpTable(56));
            } else {
              assert ExpTable(58) == Times3(ExpTable(57));
            }
          } else {
            if k < 59 {
              assert ExpTable(59) == Times3(ExpTable(58));
            } else {
              assert ExpTable(60) == Times3(ExpTable(59));
            }
          }
        } else {
          if k < 62 {
            if k < 61 {
              assert ExpTable(61) == Times3(ExpTable(60));
            } else {
              assert ExpTable(62) == Times3(ExpTable(61));
            }
          } else {
            if k < 63 {
              assert ExpTable(63) == Times3(ExpTable(62));
            } else {
              assert ExpTable(64) == Times3(ExpTable(63));
            }
          }
        }
      }
    }
  }

  lemma ExpStep64(k: int)
    requires 64 <= k < 96
    ensures ExpTable(k + 1) == Times3(ExpTable(k))
  {
    if k < 80 {
      if k < 72 {
        if k < 68 {
          if k < 66 {
            if k < 65 {
              assert ExpTable(65) == Times3(ExpTable(64));
            } else {
              assert ExpTable(66) == Times3(ExpTable(65));
            }
          } else {
            if k < 67 {
              assert ExpTable(67) == Times3(ExpTable(66));
            } else {
              assert ExpTable(68) == Times3(ExpTable(67));
            }
          }
        } else {
          if k < 70 {
            if k < 69 {
              assert ExpTable(69) == Times3(ExpTable(68));
            } else {
              assert ExpTable(70) == Times3(ExpTable(69));
            }
          } else {
            if k < 71 {
              assert ExpTable(71) == Times3(ExpTable(70));
            } else {
              assert ExpTable(72) == Times3(ExpTable(71));
            }
          }
        }
      } else {
        if k < 76 {
          if k < 74 {
            if k < 73 {
              assert ExpTable(73) == Times3(ExpTable(72));
            } else {
              assert ExpTable(74) == Times3(ExpTable(73));
            }
          } else {
            if k < 75 {
              assert ExpTable(75) == Times3(ExpTable(74));
            } else {
              assert ExpTable(76) == Times3(ExpTable(75));
            }
          }
        } else {
          if k < 78 {
            if k < 77 {
              assert ExpTable(77) == Times3(ExpTable(76));
            } else {
              assert ExpTable(78) == Times3(ExpTable(77));
            }
          } else {
            if k < 79 {
              assert ExpTable(79) == Times3(ExpTable(78));
            } else {
              assert ExpTable(80) == Times3(ExpTable(79));
            }
          }
        }
      }
    } else {
      if k < 88 {
        if k < 84 {
          if k < 82 {
            if k < 81 {
              assert ExpTable(81) == Times3(ExpTable(80));
            } else {
              assert ExpTable(82) == Times3(ExpTable(81));
            }
          } else {
            if k < 83 {
              assert ExpTable(83) == Times3(ExpTable(82));
            } else {
              assert ExpTable(84) == Times3(ExpTable(83));
            }
          }
        } else {
          if k < 86 {
            if k < 85 {
              assert ExpTable(85) == Times3(ExpTable(84));
            } else {
              assert ExpTable(86) == Times3(ExpTable(85));
            }
          } else {
            if k < 87 {
              assert ExpTable(87) == Times3(ExpTable(86));
            } else {
              assert ExpTable(88) == Times3(ExpTable(87));
            }
          }
        }
      } else {
        if k < 92 {
          if k < 90 {
            if k < 89 {
              assert ExpTable(89) == Times3(ExpTable(88));
            } else {
              assert ExpTable(90) == Times3(ExpTable(89));
            }
          } else {
            if k < 91 {
              assert ExpTable(91) == Times3(ExpTable(90));
            } else {
              assert ExpTable(92) == Times3(ExpTable(91));
            }
          }
        } else {
          if k < 94 {
            if k < 93 {
              assert ExpTable(93) == Times3(ExpTable(92));
            } else {
              assert ExpTable(94) == Times3(ExpTable(93));
            }
          } else {
            if k < 95 {
              assert ExpTable(95) == Times3(ExpTable(94));
            } else {
              assert ExpTable(96) == Times3(ExpTable(95));
            }
          }
        }
      }
    }
  }

  lemma ExpStep96(k: int)
    requires 96 <= k < 128
    ensures ExpTable(k + 1) == Times3(ExpTable(k))
  {
    if k < 112 {
      if k < 104 {
        if k < 100 {
          if k < 98 {
            if k < 97 {
              assert ExpTable(97) == Times3(ExpTable(96));
            } else {
              assert ExpTable(98) == Times3(ExpTable(97));
            }
          } else {
            if k < 99 {
              assert ExpTable(99) == Times3(ExpTable(98));
            } else {
              assert ExpTable(100) == Times3(ExpTable(99));
            }
          }
        } else {
          if k < 102 {
            if k < 101 {
              assert ExpTable(101) == Times3(ExpTable(100));
            } else {
              assert ExpTable(102) == Times3(ExpTable(101));
            }
          } else {
            if k < 103 {
              assert ExpTable(103) == Times3(ExpTable(102));
            } else {
              assert ExpTable(104) == Times3(ExpTable(103));
            }
          }
        }
      } else {
        if k < 108 {
          if k < 106 {
            if k < 105 {
              assert ExpTable(105) == Times3(ExpTable(104));
            } else {
              assert ExpTable(106) == Times3(ExpTable(105));
            }
          } else {
            if k < 107 {
              assert ExpTable(107) == Times3(ExpTable(106));
            } else {
              assert ExpTable(108) == Times3(ExpTable(107));
            }
          }
        } else {
          if k < 110 {
            if k < 109 {
              assert ExpTable(109) == Times3(ExpTable(108));
            } else {
              assert ExpTable(110) == Times3(ExpTable(109));
            }
          } else {
            if k < 111 {
              assert ExpTable(111) == Times3(ExpTable(110));
            } else {
              assert ExpTable(112) == Times3(ExpTable(111));
            }
          }
        }
      }
    } else {
      if k < 120 {
        if k < 116 {
          if k < 114 {
            if k < 113 {
              assert ExpTable(113) == Times3(ExpTable(112));
            } else {
              assert ExpTable(114) == Times3(ExpTable(113));
            }
          } else {
            if k < 115 {
              assert ExpTable(115) == Times3(ExpTable(114));
            } else {
              assert ExpTable(116) == Times3(ExpTable(115));
            }
          }
        } else {
          if k < 118 {
            if k < 117 {
              assert ExpTable(117) == Times3(ExpTable(116));
            } else {
              assert ExpTable(118) == Times3(ExpTable(117));
            }
          } else {
            if k < 119 {
              assert ExpTable(119) == Times3(ExpTable(118));
            } else {
              assert ExpTable(120) == Times3(ExpTable(119));
            }
          }
        }
      } else {
        if k < 124 {
          if k < 122 {
            if k < 121 {
              assert ExpTable(121) == Times3(ExpTable(120));
            } else {
              assert ExpTable(122) == Times3(ExpTable(121));
            }
          } else {
            if k < 123 {
              assert ExpTable(123) == Times3(ExpTable(122));
            } else {
              assert ExpTable(124) == Times3(ExpTable(123));
            }
          }
        } else {
          if k < 126 {
            if k < 125 {
              assert ExpTable(125) == Times3(ExpTable(124));
            } else {
              assert ExpTable(126) == Times3(ExpTable(125));
            }
          } else {
            if k < 127 {
              assert ExpTable(127) == Times3(ExpTable(126));
            } else {
              assert ExpTable(128) == Times3(ExpTable(127));
            }
          }
        }
      }
    }
  }

  lemma ExpStep128(k: int)
    requires 128 <= k < 160
    ensures ExpTable(k + 1) == Times3(ExpTable(k))
  {
    if k < 144 {
      if k < 136 {
        if k < 132 {
          if k < 130 {
            if k < 129 {
              assert ExpTable(129) == Times3(ExpTable(128));
            } else {
              assert ExpTable(130) == Times3(ExpTable(129));
            }
          } else {
            if k < 131 {
              assert ExpTable(131) == Times3(ExpTable(130));
            } else {
              assert ExpTable(132) == Times3(ExpTable(131));
            }
          }
        } else {
          if k < 134 {
            if k < 133 {
              assert ExpTable(133) == Times3(ExpTable(132));
            } else {
              assert ExpTable(134) == Times3(ExpTable(133));
            }
          } else {
            if k < 135 {
              assert ExpTable(135) == Times3(ExpTable(134));
            } else {
              assert ExpTable(136) == Times3(ExpTable(135));
            }
          }
        }
      } else {
        if k < 140 {
          if k < 138 {
            if k < 137 {
              assert ExpTable(137) == Times3(ExpTable(136));
            } else {
              assert ExpTable(138) == Times3(ExpTable(137));
            }
          } else {
            if k < 139 {
              assert ExpTable(139) == Times3(ExpTable(138));
            } else {
              assert ExpTable(140) == Times3(ExpTable(139));
            }
          }
        } else {
          if k < 142 {
            if k < 141 {
              assert ExpTable(141) == Times3(ExpTable(140));
            } else {
              assert ExpTable(142) == Times3(ExpTable(141));
            }
          } else {
            if k < 143 {
              assert ExpTable(143) == Times3(ExpTable(142));
            } else {
              assert ExpTable(144) == Times3(ExpTable(143));
            }
          }
        }
      }
    } else {
      if k < 152 {
        if k < 148 {
          if k < 146 {
            if k < 145 {
              assert ExpTable(145) == Times3(ExpTable(144));
            } else {
              assert ExpTable(146) == Times3(ExpTable(145));
            }
          } else {
            if k < 147 {
              assert ExpTable(147) == Times3(ExpTable(146));
            } else {
              assert ExpTable(148) == Times3(ExpTable(147));
            }
          }
        } else {
          if k < 150 {
            if k < 149 {
              assert ExpTable(149) == Times3(ExpTable(148));
            } else {
              assert ExpTable(150) == Times3(ExpTable(149));
            }
          } else {
            if k < 151 {
              assert ExpTable(151) == Times3(ExpTable(150));
            } else {
              assert ExpTable(152) == Times3(ExpTable(151));
            }
          }
        }
      } else {
        if k < 156 {
          if k < 154 {
            if k < 153 {
              assert ExpTable(153) == Times3(ExpTable(152));
            } else {
              assert ExpTable(154) == Times3(ExpTable(153));
            }
          } else {
            if k < 155 {
              assert ExpTable(155) == Times3(ExpTable(154));
            } else {
              assert ExpTable(156) == Times3(ExpTable(155));
            }
          }
        } else {
          if k < 158 {
            if k < 157 {
              assert ExpTable(157) == Times3(ExpTable(156));
            } else {
              assert ExpTable(158) == Times3(ExpTable(157));
            }
          } else {
            if k < 159 {
              assert ExpTable(159) == Times3(ExpTable(158));
            } else {
              assert ExpTable(160) == Times3(ExpTable(159));
            }
          }
        }
      }
    }
  }

  lemma ExpStep160(k: int)
    requires 160 <= k < 192
    ensures ExpTable(k + 1) == Times3(ExpTable(k))
  {
    if k < 176 {
      if k < 168 {
        if k < 164 {
          if k < 162 {
            if k < 161 {
              assert ExpTable(161) == Times3(ExpTable(160));
            } else {
              assert ExpTable(162) == Times3(ExpTable(161));
            }
          } else {
            if k < 163 {
              assert ExpTable(163) == Times3(ExpTable(162));
            } else {
              assert ExpTable(164) == Times3(ExpTable(163));
            }
          }
        } else {
          if k < 166 {
            if k < 165 {
              assert ExpTable(165) == Times3(ExpTable(164));
            } else {
              assert ExpTable(166) == Times3(ExpTable(165));
            }
          } else {
            if k < 167 {
              assert ExpTable(167) == Times3(ExpTable(166));
            } else {
              assert ExpTable(168) == Times3(ExpTable(167));
            }
          }
        }
      } else {
        if k < 172 {
          if k < 170 {
            if k < 169 {
              assert ExpTable(169) == Times3(ExpTable(168));
            } else {
              assert ExpTable(170) == Times3(ExpTable(169));
            }
          } else {
            if k < 171 {
              assert ExpTable(171) == Times3(ExpTable(170));
            } else {
              assert ExpTable(172) == Times3(ExpTable(171));
            }
          }
        } else {
          if k < 174 {
            if k < 173 {
              assert ExpTable(173) == Times3(ExpTable(172));
            } else {
              assert ExpTable(174) == Times3(ExpTable(173));
            }
          } else {
            if k < 175 {
              assert ExpTable(175) == Times3(ExpTable(174));
            } else {
              assert ExpTable(176) == Times3(ExpTable(175));
            }
          }
        }
      }
    } else {
      if k < 184 {
        if k < 180 {
          if k < 178 {
            if k < 177 {
              assert ExpTable(177) == Times3(ExpTable(176));
            } else {
              assert ExpTable(178) == Times3(ExpTable(177));
            }
          } else {
            if k < 179 {
              assert ExpTable(179) == Times3(ExpTable(178));
            } else {
              assert ExpTable(180) == Times3(ExpTable(179));
            }
          }
        } else {
          if k < 182 {
            if k < 181 {
              assert ExpTable(181) == Times3(ExpTable(180));
            } else {
              assert ExpTable(182) == Times3(ExpTable(181));
            }
          } else {
            if k < 183 {
              assert ExpTable(183) == Times3(ExpTable(182));
            } else {
              assert ExpTable(184) == Times3(ExpTable(183));
            }
          }
        }
      } else {
        if k < 188 {
          if k < 186 {
            if k < 185 {
              assert ExpTable(185) == Times3(ExpTable(184));
            } else {
              assert ExpTable(186) == Times3(ExpTable(185));
            }
          } else {
            if k < 187 {
              assert ExpTable(187) == Times3(ExpTable(186));
            } else {
              assert ExpTable(188) == Times3(ExpTable(187));
            }
          }
        } else {
          if k < 190 {
            if k < 189 {
              assert ExpTable(189) == Times3(ExpTable(188));
            } else {
              assert ExpTable(190) == Times3(ExpTable(189));
            }
          } else {
            if k < 191 {
              assert ExpTable(191) == Times3(ExpTable(190));
            } else {
              assert ExpTable(192) == Times3(ExpTable(191));
            }
          }
        }
      }
    }
  }

  lemma ExpStep192(k: int)
    requires 192 <= k < 224
    ensures ExpTable(k + 1) == Times3(ExpTable(k))
  {
    if k < 208 {
      if k < 200 {
        if k < 196 {
          if k < 194 {
            if k < 193 {
              assert ExpTable(193) == Times3(ExpTable(192));
            } else {
              assert ExpTable(194) == Times3(ExpTable(193));
            }
          } else {
            if k < 195 {
              assert ExpTable(195) == Times3(ExpTable(194));
            } else {
              assert ExpTable(196) == Times3(ExpTable(195));
            }
          }
        } else {
          if k < 198 {
            if k < 197 {
              assert ExpTable(197) == Times3(ExpTable(196));
            } else {
              assert ExpTable(198) == Times3(ExpTable(197));
            }
          } else {
            if k < 199 {
              assert ExpTable(199) == Times3(ExpTable(198));
            } else {
              assert ExpTable(200) == Times3(ExpTable(199));
            }
          }
        }
      } else {
        if k < 204 {
          if k < 202 {
            if k < 201 {
              assert ExpTable(201) == Times3(ExpTable(200));
            } else {
              assert ExpTable(202) == Times3(ExpTable(201));
            }
          } else {
            if k < 203 {
              assert ExpTable(203) == Times3(ExpTable(202));
            } else {
              assert ExpTable(204) == Times3(ExpTable(203));
            }
          }
        } else {
          if k < 206 {
            if k < 205 {
              assert ExpTable(205) == Times3(ExpTable(204));
            } else {
              assert ExpTable(206) == Times3(ExpTable(205));
            }
          } else {
            if k < 207 {
              assert ExpTable(207) == Times3(ExpTable(206));
            } else {
              assert ExpTable(208) == Times3(ExpTable(207));
            }
          }
        }
      }
    } else {
      if k < 216 {
        if k < 212 {
          if k < 210 {
            if k < 209 {
              assert ExpTable(209) == Times3(ExpTable(208));
            } else {
              assert ExpTable(210) == Times3(ExpTable(209));
            }
          } else {
            if k < 211 {
              assert ExpTable(211) == Times3(ExpTable(210));
            } else {
              assert ExpTable(212) == Times3(ExpTable(211));
            }
          }
        } else {
          if k < 214 {
            if k < 213 {
              assert ExpTable(213) == Times3(ExpTable(212));
            } else {
              assert ExpTable(214) == Times3(ExpTable(213));
            }
          } else {
            if k < 215 {
              assert ExpTable(215) == Times3(ExpTable(214));
            } else {
              assert ExpTable(216) == Times3(ExpTable(215));
            }
          }
        }
      } else {
        if k < 220 {
          if k < 218 {
            if k < 217 {
              assert ExpTable(217) == Times3(ExpTable(216));
            } else {
              assert ExpTable(218) == Times3(ExpTable(217));
            }
          } else {
            if k < 219 {
              assert ExpTable(219) == Times3(ExpTable(218));
            } else {
              assert ExpTable(220) == Times3(ExpTable(219));
            }
          }
        } else {
          if k < 222 {
            if k < 221 {
              assert ExpTable(221) == Times3(ExpTable(220));
            } else {
              assert ExpTable(222) == Times3(ExpTable(221));
            }
          } else {
            if k < 223 {
              assert ExpTable(223) == Times3(ExpTable(222));
            } else {
              assert ExpTable(224) == Times3(ExpTable(223));
            }
          }
        }
      }
    }
  }

  lemma ExpStep224(k: int)
    requires 224 <= k < 255
    ensures ExpTable(k + 1) == Times3(ExpTable(k))
  {
    if k < 239 {
      if k < 231 {
        if k < 227 {
          if k < 225 {
            assert ExpTable(225) == Times3(ExpTable(224));
          } else {
            if k < 226 {
              assert ExpTable(226) == Times3(ExpTable(225));
            } else {
              assert ExpTable(227) == Times3(ExpTable(226));
            }
          }
        } else {
          if k < 229 {
            if k < 228 {
              assert ExpTable(228) == Times3(ExpTable(227));
            } else {
              assert ExpTable(229) == Times3(ExpTable(228));
            }
          } else {
            if k < 230 {
              assert ExpTable(230) == Times3(ExpTable(229));
            } else {
              assert ExpTable(231) == Times3(ExpTable(230));
            }
          }
        }
      } else {
        if k < 235 {
          if k < 233 {
            if k < 232 {
              assert ExpTable(232) == Times3(ExpTable(231));
            } else {
              assert ExpTable(233) == Times3(ExpTable(232));
            }
          } else {
            if k < 234 {
              assert ExpTable(234) == Times3(ExpTable(233));
            } else {
              assert ExpTable(235) == Times3(ExpTable(234));
            }
          }
        } else {
          if k < 237 {
            if k < 236 {
              assert ExpTable(236) == Times3(ExpTable(235));
            } else {
              assert ExpTable(237) == Times3(ExpTable(236));
            }
          } else {
            if k < 238 {
              assert ExpTable(238) == Times3(ExpTable(237));
            } else {
              assert ExpTable(239) == Times3(ExpTable(238));
            }
          }
        }
      }
    } else {
      if k < 247 {
        if k < 243 {
          if k < 241 {
            if k < 240 {
              assert ExpTable(240) == Times3(ExpTable(239));
            } else {
              assert ExpTable(241) == Times3(ExpTable(240));
            }
          } else {
            if k < 242 {
              assert ExpTable(242) == Times3(ExpTable(241));
            } else {
              assert ExpTable(243) == Times3(ExpTable(242));
            }
          }
        } else {
          if k < 245 {
            if k < 244 {
              assert ExpTable(244) == Times3(ExpTable(243));
            } else {
              assert ExpTable(245) == Times3(ExpTable(244));
            }
          } else {
            if k < 246 {
              assert ExpTable(246) == Times3(ExpTable(245));
            } else {
              assert ExpTable(247) == Times3(ExpTable(246));
            }
          }
        }
      } else {
        if k < 251 {
          if k < 249 {
            if k < 248 {
              assert ExpTable(248) == Times3(ExpTable(247));
            } else {
              assert ExpTable(249) == Times3(ExpTable(248));
            }
          } else {
            if k < 250 {
              assert ExpTable(250) == Times3(ExpTable(249));
            } else {
              assert ExpTable(251) == Times3(ExpTable(250));
            }
          }
        } else {
          if k < 253 {
            if k < 252 {
              assert ExpTable(252) == Times3(ExpTable(251));
            } else {
              assert ExpTable(253) == Times3(ExpTable(252));
            }
          } else {
            if k < 254 {
              assert ExpTable(254) == Times3(ExpTable(253));
            } else {
              assert ExpTable(255) == Times3(ExpTable(254));
            }
          }
        }
      }
    }
  }

  /** Each exponent-table entry is 3 times the previous one. */
  lemma ExpStep(k: int)
    requires 0 <= k < 255
    ensures ExpTable(k + 1) == Times3(ExpTable(k))
  {
    if k < 32 {
      ExpStep0(k);
    } else if k < 64 {
      ExpStep32(k);
    } else if k < 96 {
      ExpStep64(k);
    } else if k < 128 {
      ExpStep96(k);
    } else if k < 160 {
      ExpStep128(k);
    } else if k < 192 {
      ExpStep160(k);
    } else if k < 224 {
      ExpStep192(k);
    } else {
      ExpStep224(k);
    }
  }

  lemma LogTableBound0(a: bv8)
    requires a < 32
    ensures 0 <= LogTable(a) < 255
  {
    if a < 16 {
      if a < 8 {
        if a < 4 {
          if a < 2 {
            if a < 1 {
              assert 0 <= LogTable(0) < 255;
            } else {
              assert 0 <= LogTable(1) < 255;
            }
          } else {
            if a < 3 {
              assert 0 <= LogTable(2) < 255;
            } else {
              assert 0 <= LogTable(3) < 255;
            }
          }
        } else {
          if a < 6 {
            if a < 5 {
              assert 0 <= LogTable(4) < 255;
            } else {
              assert 0 <= LogTable(5) < 255;
            }
          } else {
            if a < 7 {
              assert 0 <= LogTable(6) < 255;
            } else {
              assert 0 <= LogTable(7) < 255;
            }
          }
        }
      } else {
        if a < 12 {
          if a < 10 {
            if a < 9 {
              assert 0 <= LogTable(8) < 255;
            } else {
              assert 0 <= LogTable(9) < 255;
            }
          } else {
            if a < 11 {
              assert 0 <= LogTable(10) < 255;
            } else {
              assert 0 <= LogTable(11) < 255;
            }
          }
        } else {
          if a < 14 {
            if a < 13 {
              assert 0 <= LogTable(12) < 255;
            } else {
              assert 0 <= LogTable(13) < 255;
            }
          } else {
            if a < 15 {
              assert 0 <= LogTable(14) < 255;
            } else {
              assert 0 <= LogTable(15) < 255;
            }
          }
        }
      }
    } else {
      if a < 24 {
        if a < 20 {
          if a < 18 {
            if a < 17 {
              assert 0 <= LogTable(16) < 255;
            } else {
              assert 0 <= LogTable(17) < 255;
            }
          } else {
            if a < 19 {
              assert 0 <= LogTable(18) < 255;
            } else {
              assert 0 <= LogTable(19) < 255;
            }
          }
        } else {
          if a < 22 {
            if a < 21 {
              assert 0 <= LogTable(20) < 255;
            } else {
              assert 0 <= LogTable(21) < 255;
            }
          } else {
            if a < 23 {
              assert 0 <= LogTable(22) < 255;
            } else {
              assert 0 <= LogTable(23) < 255;
            }
          }
        }
      } else {
        if a < 28 {
          if a < 26 {
            if a < 25 {
              assert 0 <= LogTable(24) < 255;
            } else {
              assert 0 <= LogTable(25) < 255;
            }
          } else {
            if a < 27 {
              assert 0 <= LogTable(26) < 255;
            } else {
              assert 0 <= LogTable(27) < 255;
            }
          }
        } else {
          if a < 30 {
            if a < 29 {
              assert 0 <= LogTable(28) < 255;
            } else {
              assert 0 <= LogTable(29) < 255;
            }
          } else {
            if a < 31 {
              assert 0 <= LogTable(30) < 255;
            } else {
              assert 0 <= LogTable(31) < 255;
            }
          }
        }
      }
    }
  }

  lemma LogTableBound32(a: bv8)
    requires 32 <= a && a < 64
    ensures 0 <= LogTable(a) < 255
  {
    if a < 48 {
      if a < 40 {
        if a < 36 {
          if a < 34 {
            if a < 33 {
              assert 0 <= LogTable(32) < 255;
            } else {
              assert 0 <= LogTable(33) < 255;
            }
          } else {
            if a < 35 {
              assert 0 <= LogTable(34) < 255;
            } else {
              assert 0 <= LogTable(35) < 255;
            }
          }
        } else {
          if a < 38 {
            if a < 37 {
              assert 0 <= LogTable(36) < 255;
            } else {
              assert 0 <= LogTable(37) < 255;
            }
          } else {
            if a < 39 {
              assert 0 <= LogTable(38) < 255;
            } else {
              assert 0 <= LogTable(39) < 255;
            }
          }
        }
      } else {
        if a < 44 {
          if a < 42 {
            if a < 41 {
              assert 0 <= LogTable(40) < 255;
            } else {
              assert 0 <= LogTable(41) < 255;
            }
          } else {
            if a < 43 {
              assert 0 <= LogTable(42) < 255;
            } else {
              assert 0 <= LogTable(43) < 255;
            }
          }
        } else {
          if a < 46 {
            if a < 45 {
              assert 0 <= LogTable(44) < 255;
            } else {
              assert 0 <= LogTable(45) < 255;
            }
          } else {
            if a < 47 {
              assert 0 <= LogTable(46) < 255;
            } else {
              assert 0 <= LogTable(47) < 255;
            }
          }
        }
      }
    } else {
      if a < 56 {
        if a < 52 {
          if a < 50 {
            if a < 49 {
              assert 0 <= LogTable(48) < 255;
            } else {
              assert 0 <= LogTable(49) < 255;
            }
          } else {
            if a < 51 {
              assert 0 <= LogTable(50) < 255;
            } else {
              assert 0 <= LogTable(51) < 255;
            }
          }
        } else {
          if a < 54 {
            if a < 53 {
              assert 0 <= LogTable(52) < 255;
            } else {
              assert 0 <= LogTable(53) < 255;
            }
          } else {
            if a < 55 {
              assert 0 <= LogTable(54) < 255;
            } else {
              assert 0 <= LogTable(55) < 255;
            }
          }
        }
      } else {
        if a < 60 {
          if a < 58 {
            if a < 57 {
              assert 0 <= LogTable(56) < 255;
            } else {
              assert 0 <= LogTable(57) < 255;
            }
          } else {
            if a < 59 {
              assert 0 <= LogTable(58) < 255;
            } else {
              assert 0 <= LogTable(59) < 255;
            }
          }
        } else {
          if a < 62 {
            if a < 61 {
              assert 0 <= LogTable(60) < 255;
            } else {
              assert 0 <= LogTable(61) < 255;
            }
          } else {
            if a < 63 {
              assert 0 <= LogTable(62) < 255;
            } else {
              assert 0 <= LogTable(63) < 255;
            }
          }
        }
      }
    }
  }

  lemma LogTableBound64(a: bv8)
    requires 64 <= a && a < 96
    ensures 0 <= LogTable(a) < 255
  {
    if a < 80 {
      if a < 72 {
        if a < 68 {
          if a < 66 {
            if a < 65 {
              assert 0 <= LogTable(64) < 255;
            } else {
              assert 0 <= LogTable(65) < 255;
            }
          } else {
            if a < 67 {
              assert 0 <= LogTable(66) < 255;
            } else {
              assert 0 <= LogTable(67) < 255;
            }
          }
        } else {
          if a < 70 {
            if a < 69 {
              assert 0 <= LogTable(68) < 255;
            } else {
              assert 0 <= LogTable(69) < 255;
            }
          } else {
            if a < 71 {
              assert 0 <= LogTable(70) < 255;
            } else {
              assert 0 <= LogTable(71) < 255;
            }
          }
        }
      } else {
        if a < 76 {
          if a < 74 {
            if a < 73 {
              assert 0 <= LogTable(72) < 255;
            } else {
              assert 0 <= LogTable(73) < 255;
            }
          } else {
            if a < 75 {
              assert 0 <= LogTable(74) < 255;
            } else {
              assert 0 <= LogTable(75) < 255;
            }
          }
        } else {
          if a < 78 {
            if a < 77 {
              assert 0 <= LogTable(76) < 255;
            } else {
              assert 0 <= LogTable(77) < 255;
            }
          } else {
            if a < 79 {
              assert 0 <= LogTable(78) < 255;
            } else {
              assert 0 <= LogTable(79) < 255;
            }
          }
        }
      }
    } else {
      if a < 88 {
        if a < 84 {
          if a < 82 {
            if a < 81 {
              assert 0 <= LogTable(80) < 255;
            } else {
              assert 0 <= LogTable(81) < 255;
            }
          } else {
            if a < 83 {
              assert 0 <= LogTable(82) < 255;
            } else {
              assert 0 <= LogTable(83) < 255;
            }
          }
        } else {
          if a < 86 {
            if a < 85 {
              assert 0 <= LogTable(84) < 255;
            } else {
              assert 0 <= LogTable(85) < 255;
            }
          } else {
            if a < 87 {
              assert 0 <= LogTable(86) < 255;
            } else {
              assert 0 <= LogTable(87) < 255;
            }
          }
        }
      } else {
        if a < 92 {
          if a < 90 {
            if a < 89 {
              assert 0 <= LogTable(88) < 255;
            } else {
              assert 0 <= LogTable(89) < 255;
            }
          } else {
            if a < 91 {
              assert 0 <= LogTable(90) < 255;
            } else {
              assert 0 <= LogTable(91) < 255;
            }
          }
        } else {
          if a < 94 {
            if a < 93 {
              assert 0 <= LogTable(92) < 255;
            } else {
              assert 0 <= LogTable(93) < 255;
            }
          } else {
            if a < 95 {
              assert 0 <= LogTable(94) < 255;
            } else {
              assert 0 <= LogTable(95) < 255;
            }
          }
        }
      }
    }
  }

  lemma LogTableBound96(a: bv8)
    requires 96 <= a && a < 128
    ensures 0 <= LogTable(a) < 255
  {
    if a < 112 {
      if a < 104 {
        if a < 100 {
          if a < 98 {
            if a < 97 {
              assert 0 <= LogTable(96) < 255;
            } else {
              assert 0 <= LogTable(97) < 255;
            }
          } else {
            if a < 99 {
              assert 0 <= LogTable(98) < 255;
            } else {
              assert 0 <= LogTable(99) < 255;
            }
          }
        } else {
          if a < 102 {
            if a < 101 {
              assert 0 <= LogTable(100) < 255;
            } else {
              assert 0 <= LogTable(101) < 255;
            }
          } else {
            if a < 103 {
              assert 0 <= LogTable(102) < 255;
            } else {
              assert 0 <= LogTable(103) < 255;
            }
          }
        }
      } else {
        if a < 108 {
          if a < 106 {
            if a < 105 {
              assert 0 <= LogTable(104) < 255;
            } else {
              assert 0 <= LogTable(105) < 255;
            }
          } else {
            if a < 107 {
              assert 0 <= LogTable(106) < 255;
            } else {
              assert 0 <= LogTable(107) < 255;
            }
          }
        } else {
          if a < 110 {
            if a < 109 {
              assert 0 <= LogTable(108) < 255;
            } else {
              assert 0 <= LogTable(109) < 255;
            }
          } else {
            if a < 111 {
              assert 0 <= LogTable(110) < 255;
            } else {
              assert 0 <= LogTable(111) < 255;
            }
          }
        }
      }
    } else {
      if a < 120 {
        if a < 116 {
          if a < 114 {
            if a < 113 {
              assert 0 <= LogTable(112) < 255;
            } else {
              assert 0 <= LogTable(113) < 255;
            }
          } else {
            if a < 115 {
              assert 0 <= LogTable(114) < 255;
            } else {
              assert 0 <= LogTable(115) < 255;
            }
          }
        } else {
          if a < 118 {
            if a < 117 {
              assert 0 <= LogTable(116) < 255;
            } else {
              assert 0 <= LogTable(117) < 255;
            }
          } else {
            if a < 119 {
              assert 0 <= LogTable(118) < 255;
            } else {
              assert 0 <= LogTable(119) < 255;
            }
          }
        }
      } else {
        if a < 124 {
          if a < 122 {
            if a < 121 {
              assert 0 <= LogTable(120) < 255;
            } else {
              assert 0 <= LogTable(121) < 255;
            }
          } else {
            if a < 123 {
              assert 0 <= LogTable(122) < 255;
            } else {
              assert 0 <= LogTable(123) < 255;
            }
          }
        } else {
          if a < 126 {
            if a < 125 {
              assert 0 <= LogTable(124) < 255;
            } else {
              assert 0 <= LogTable(125) < 255;
            }
          } else {
            if a < 127 {
              assert 0 <= LogTable(126) < 255;
            } else {
              assert 0 <= LogTable(127) < 255;
            }
          }
        }
      }
    }
  }

  lemma LogTableBound128(a: bv8)
    requires 128 <= a && a < 160
    ensures 0 <= LogTable(a) < 255
  {
    if a < 144 {
      if a < 136 {
        if a < 132 {
          if a < 130 {
            if a < 129 {
              assert 0 <= LogTable(128) < 255;
            } else {
              assert 0 <= LogTable(129) < 255;
            }
          } else {
            if a < 131 {
              assert 0 <= LogTable(130) < 255;
            } else {
              assert 0 <= LogTable(131) < 255;
            }
          }
        } else {
          if a < 134 {
            if a < 133 {
              assert 0 <= LogTable(132) < 255;
            } else {
              assert 0 <= LogTable(133) < 255;
            }
          } else {
            if a < 135 {
              assert 0 <= LogTable(134) < 255;
            } else {
              assert 0 <= LogTable(135) < 255;
            }
          }
        }
      } else {
        if a < 140 {
          if a < 138 {
            if a < 137 {
              assert 0 <= LogTable(136) < 255;
            } else {
              assert 0 <= LogTable(137) < 255;
            }
          } else {
            if a < 139 {
              assert 0 <= LogTable(138) < 255;
            } else {
              assert 0 <= LogTable(139) < 255;
            }
          }
        } else {
          if a < 142 {
            if a < 141 {
              assert 0 <= LogTable(140) < 255;
            } else {
              assert 0 <= LogTable(141) < 255;
            }
          } else {
            if a < 143 {
              assert 0 <= LogTable(142) < 255;
            } else {
              assert 0 <= LogTable(143) < 255;
            }
          }
        }
      }
    } else {
      if a < 152 {
        if a < 148 {
          if a < 146 {
            if a < 145 {
              assert 0 <= LogTable(144) < 255;
            } else {
              assert 0 <= LogTable(145) < 255;
            }
          } else {
            if a < 147 {
              assert 0 <= LogTable(146) < 255;
            } else {
              assert 0 <= LogTable(147) < 255;
            }
          }
        } else {
          if a < 150 {
            if a < 149 {
              assert 0 <= LogTable(148) < 255;
            } else {
              assert 0 <= LogTable(149) < 255;
            }
          } else {
            if a < 151 {
              assert 0 <= LogTable(150) < 255;
            } else {
              assert 0 <= LogTable(151) < 255;
            }
          }
        }
      } else {
        if a < 156 {
          if a < 154 {
            if a < 153 {
              assert 0 <= LogTable(152) < 255;
            } else {
              assert 0 <= LogTable(153) < 255;
            }
          } else {
            if a < 155 {
              assert 0 <= LogTable(154) < 255;
            } else {
              assert 0 <= LogTable(155) < 255;
            }
          }
        } else {
          if a < 158 {
            if a < 157 {
              assert 0 <= LogTable(156) < 255;
            } else {
              assert 0 <= LogTable(157) < 255;
            }
          } else {
            if a < 159 {
              assert 0 <= LogTable(158) < 255;
            } else {
              assert 0 <= LogTable(159) < 255;
            }
          }
        }
      }
    }
  }

  lemma LogTableBound160(a: bv8)
    requires 160 <= a && a < 192
    ensures 0 <= LogTable(a) < 255
  {
    if a < 176 {
      if a < 168 {
        if a < 164 {
          if a < 162 {
            if a < 161 {
              assert 0 <= LogTable(160) < 255;
            } else {
              assert 0 <= LogTable(161) < 255;
            }
          } else {
            if a < 163 {
              assert 0 <= LogTable(162) < 255;
            } else {
              assert 0 <= LogTable(163) < 255;
            }
          }
        } else {
          if a < 166 {
            if a < 165 {
              assert 0 <= LogTable(164) < 255;
            } else {
              assert 0 <= LogTable(165) < 255;
            }
          } else {
            if a < 167 {
              assert 0 <= LogTable(166) < 255;
            } else {
              assert 0 <= LogTable(167) < 255;
            }
          }
        }
      } else {
        if a < 172 {
          if a < 170 {
            if a < 169 {
              assert 0 <= LogTable(168) < 255;
            } else {
              assert 0 <= LogTable(169) < 255;
            }
          } else {
            if a < 171 {
              assert 0 <= LogTable(170) < 255;
            } else {
              assert 0 <= LogTable(171) < 255;
            }
          }
        } else {
          if a < 174 {
            if a < 173 {
              assert 0 <= LogTable(172) < 255;
            } else {
              assert 0 <= LogTable(173) < 255;
            }
          } else {
            if a < 175 {
              assert 0 <= LogTable(174) < 255;
            } else {
              assert 0 <= LogTable(175) < 255;
            }
          }
        }
      }
    } else {
      if a < 184 {
        if a < 180 {
          if a < 178 {
            if a < 177 {
              assert 0 <= LogTable(176) < 255;
            } else {
              assert 0 <= LogTable(177) < 255;
            }
          } else {
            if a < 179 {
              assert 0 <= LogTable(178) < 255;
            } else {
              assert 0 <= LogTable(179) < 255;
            }
          }
        } else {
          if a < 182 {
            if a < 181 {
              assert 0 <= LogTable(180) < 255;
            } else {
              assert 0 <= LogTable(181) < 255;
            }
          } else {
            if a < 183 {
              assert 0 <= LogTable(182) < 255;
            } else {
              assert 0 <= LogTable(183) < 255;
            }
          }
        }
      } else {
        if a < 188 {
          if a < 186 {
            if a < 185 {
              assert 0 <= LogTable(184) < 255;
            } else {
              assert 0 <= LogTable(185) < 255;
            }
          } else {
            if a < 187 {
              assert 0 <= LogTable(186) < 255;
            } else {
              assert 0 <= LogTable(187) < 255;
            }
          }
        } else {
          if a < 190 {
            if a < 189 {
              assert 0 <= LogTable(188) < 255;
            } else {
              assert 0 <= LogTable(189) < 255;
            }
          } else {
            if a < 191 {
              assert 0 <= LogTable(190) < 255;
            } else {
              assert 0 <= LogTable(191) < 255;
            }
          }
        }
      }
    }
  }

  lemma LogTableBound192(a: bv8)
    requires 192 <= a && a < 224
    ensures 0 <= LogTable(a) < 255
  {
    if a < 208 {
      if a < 200 {
        if a < 196 {
          if a < 194 {
            if a < 193 {
              assert 0 <= LogTable(192) < 255;
            } else {
              assert 0 <= LogTable(193) < 255;
            }
          } else {
            if a < 195 {
              assert 0 <= LogTable(194) < 255;
            } else {
              assert 0 <= LogTable(195) < 255;
            }
          }
        } else {
          if a < 198 {
            if a < 197 {
              assert 0 <= LogTable(196) < 255;
            } else {
              assert 0 <= LogTable(197) < 255;
            }
          } else {
            if a < 199 {
              assert 0 <= LogTable(198) < 255;
            } else {
              assert 0 <= LogTable(199) < 255;
            }
          }
        }
      } else {
        if a < 204 {
          if a < 202 {
            if a < 201 {
              assert 0 <= LogTable(200) < 255;
            } else {
              assert 0 <= LogTable(201) < 255;
            }
          } else {
            if a < 203 {
              assert 0 <= LogTable(202) < 255;
            } else {
              assert 0 <= LogTable(203) < 255;
            }
          }
        } else {
          if a < 206 {
            if a < 205 {
              assert 0 <= LogTable(204) < 255;
            } else {
              assert 0 <= LogTable(205) < 255;
            }
          } else {
            if a < 207 {
              assert 0 <= LogTable(206) < 255;
            } else {
              assert 0 <= LogTable(207) < 255;
            }
          }
        }
      }
    } else {
      if a < 216 {
        if a < 212 {
          if a < 210 {
            if a < 209 {
              assert 0 <= LogTable(208) < 255;
            } else {
              assert 0 <= LogTable(209) < 255;
            }
          } else {
            if a < 211 {
              assert 0 <= LogTable(210) < 255;
            } else {
              assert 0 <= LogTable(211) < 255;
            }
          }
        } else {
          if a < 214 {
            if a < 213 {
              assert 0 <= LogTable(212) < 255;
            } else {
              assert 0 <= LogTable(213) < 255;
            }
          } else {
            if a < 215 {
              assert 0 <= LogTable(214) < 255;
            } else {
              assert 0 <= LogTable(215) < 255;
            }
          }
        }
      } else {
        if a < 220 {
          if a < 218 {
            if a < 217 {
              assert 0 <= LogTable(216) < 255;
            } else {
              assert 0 <= LogTable(217) < 255;
            }
          } else {
            if a < 219 {
              assert 0 <= LogTable(218) < 255;
            } else {
              assert 0 <= LogTable(219) < 255;
            }
          }
        } else {
          if a < 222 {
            if a < 221 {
              assert 0 <= LogTable(220) < 255;
            } else {
              assert 0 <= LogTable(221) < 255;
            }
          } else {
            if a < 223 {
              assert 0 <= LogTable(222) < 255;
            } else {
              assert 0 <= LogTable(223) < 255;
            }
          }
        }
      }
    }
  }

  lemma LogTableBound224(a: bv8)
    requires 224 <= a
    ensures 0 <= LogTable(a) < 255
  {
    if a < 240 {
      if a < 232 {
        if a < 228 {
          if a < 226 {
            if a < 225 {
              assert 0 <= LogTable(224) < 255;
            } else {
              assert 0 <= LogTable(225) < 255;
            }
          } else {
            if a < 227 {
              assert 0 <= LogTable(226) < 255;
            } else {
              assert 0 <= LogTable(227) < 255;
            }
          }
        } else {
          if a < 230 {
            if a < 229 {
              assert 0 <= LogTable(228) < 255;
            } else {
              assert 0 <= LogTable(229) < 255;
            }
          } else {
            if a < 231 {
              assert 0 <= LogTable(230) < 255;
            } else {
              assert 0 <= LogTable(231) < 255;
            }
          }
        }
      } else {
        if a < 236 {
          if a < 234 {
            if a < 233 {
              assert 0 <= LogTable(232) < 255;
            } else {
              assert 0 <= LogTable(233) < 255;
            }
          } else {
            if a < 235 {
              assert 0 <= LogTable(234) < 255;
            } else {
              assert 0 <= LogTable(235) < 255;
            }
          }
        } else {
          if a < 238 {
            if a < 237 {
              assert 0 <= LogTable(236) < 255;
            } else {
              assert 0 <= LogTable(237) < 255;
            }
          } else {
            if a < 239 {
              assert 0 <= LogTable(238) < 255;
            } else {
              assert 0 <= LogTable(239) < 255;
            }
          }
        }
      }
    } else {
      if a < 248 {
        if a < 244 {
          if a < 242 {
            if a < 241 {
              assert 0 <= LogTable(240) < 255;
            } else {
              assert 0 <= LogTable(241) < 255;
            }
          } else {
            if a < 243 {
              assert 0 <= LogTable(242) < 255;
            } else {
              assert 0 <= LogTable(243) < 255;
            }
          }
        } else {
          if a < 246 {
            if a < 245 {
              assert 0 <= LogTable(244) < 255;
            } else {
              assert 0 <= LogTable(245) < 255;
            }
          } else {
            if a < 247 {
              assert 0 <= LogTable(246) < 255;
            } else {
              assert 0 <= LogTable(247) < 255;
            }
          }
        }
      } else {
        if a < 252 {
          if a < 250 {
            if a < 249 {
              assert 0 <= LogTable(248) < 255;
            } else {
              assert 0 <= LogTable(249) < 255;
            }
          } else {
            if a < 251 {
              assert 0 <= LogTable(250) < 255;
            } else {
              assert 0 <= LogTable(251) < 255;
            }
          }
        } else {
          if a < 254 {
            if a < 253 {
              assert 0 <= LogTable(252) < 255;
            } else {
              assert 0 <= LogTable(253) < 255;
            }
          } else {
            if a < 255 {
              assert 0 <= LogTable(254) < 255;
            } else {
              assert 0 <= LogTable(255) < 255;
            }
          }
        }
      }
    }
  }

  /** Every entry of the logarithm table is an index of the exponent table. */
  lemma LogTableBound(a: bv8)
    ensures 0 <= LogTable(a) < 255
  {
    if a < 32 {
      LogTableBound0(a);
    } else if a < 64 {
      LogTableBound32(a);
    } else if a < 96 {
      LogTableBound64(a);
    } else if a < 128 {
      LogTableBound96(a);
    } else if a < 160 {
      LogTableBound128(a);
    } else if a < 192 {
      LogTableBound160(a);
    } else if a < 224 {
      LogTableBound192(a);
    } else {
      LogTableBound224(a);
    }
  }

  lemma LogTableExpTable0(k: int)
    requires 0 <= k < 32
    ensures LogTable(ExpTable(k)) == k
  {
    if k < 16 {
      if k < 8 {
        if k < 4 {
          if k < 2 {
            if k < 1 {
              assert LogTable(ExpTable(0)) == 0;
            } else {
              assert LogTable(ExpTable(1)) == 1;
            }
          } else {
            if k < 3 {
              assert LogTable(ExpTable(2)) == 2;
            } else {
              assert LogTable(ExpTable(3)) == 3;
            }
          }
        } else {
          if k < 6 {
            if k < 5 {
              assert LogTable(ExpTable(4)) == 4;
            } else {
              assert LogTable(ExpTable(5)) == 5;
            }
          } else {
            if k < 7 {
              assert LogTable(ExpTable(6)) == 6;
            } else {
              assert LogTable(ExpTable(7)) == 7;
            }
          }
        }
      } else {
        if k < 12 {
          if k < 10 {
            if k < 9 {
              assert LogTable(ExpTable(8)) == 8;
            } else {
              assert LogTable(ExpTable(9)) == 9;
            }
          } else {
            if k < 11 {
              assert LogTable(ExpTable(10)) == 10;
            } else {
              assert LogTable(ExpTable(11)) == 11;
            }
          }
        } else {
          if k < 14 {
            if k < 13 {
              assert LogTable(ExpTable(12)) == 12;
            } else {
              assert LogTable(ExpTable(13)) == 13;
            }
          } else {
            if k < 15 {
              assert LogTable(ExpTable(14)) == 14;
            } else {
              assert LogTable(ExpTable(15)) == 15;
            }
          }
        }
      }
    } else {
      if k < 24 {
        if k < 20 {
          if k < 18 {
            if k < 17 {
              assert LogTable(ExpTable(16)) == 16;
            } else {
              assert LogTable(ExpTable(17)) == 17;
            }
          } else {
            if k < 19 {
              assert LogTable(ExpTable(18)) == 18;
            } else {
              assert LogTable(ExpTable(19)) == 19;
            }
          }
        } else {
          if k < 22 {
            if k < 21 {
              assert LogTable(ExpTable(20)) == 20;
            } else {
              assert LogTable(ExpTable(21)) == 21;
            }
          } else {
            if k < 23 {
              assert LogTable(ExpTable(22)) == 22;
            } else {
              assert LogTable(ExpTable(23)) == 23;
            }
          }
        }
      } else {
        if k < 28 {
          if k < 26 {
            if k < 25 {
              assert LogTable(ExpTable(24)) == 24;
            } else {
              assert LogTable(ExpTable(25)) == 25;
            }
          } else {
            if k < 27 {
              assert LogTable(ExpTable(26)) == 26;
            } else {
              assert LogTable(ExpTable(27)) == 27;
            }
          }
        } else {
          if k < 30 {
            if k < 29 {
              assert LogTable(ExpTable(28)) == 28;
            } else {
              assert LogTable(ExpTable(29)) == 29;
            }
          } else {
            if k < 31 {
              assert LogTable(ExpTable(30)) == 30;
            } else {
              assert LogTable(ExpTable(31)) == 31;
            }
          }
        }
      }
    }
  }

  lemma LogTableExpTable32(k: int)
    requires 32 <= k < 64
    ensures LogTable(ExpTable(k)) == k
  {
    if k < 48 {
      if k < 40 {
        if k < 36 {
          if k < 34 {
            if k < 33 {
              assert LogTable(ExpTable(32)) == 32;
            } else {
              assert LogTable(ExpTable(33)) == 33;
            }
          } else {
            if k < 35 {
              assert LogTable(ExpTable(34)) == 34;
            } else {
              assert LogTable(ExpTable(35)) == 35;
            }
          }
        } else {
          if k < 38 {
            if k < 37 {
              assert LogTable(ExpTable(36)) == 36;
            } else {
              assert LogTable(ExpTable(37)) == 37;
            }
          } else {
            if k < 39 {
              assert LogTable(ExpTable(38)) == 38;
            } else {
              assert LogTable(ExpTable(39)) == 39;
            }
          }
        }
      } else {
        if k < 44 {
          if k < 42 {
            if k < 41 {
              assert LogTable(ExpTable(40)) == 40;
            } else {
              assert LogTable(ExpTable(41)) == 41;
            }
          } else {
            if k < 43 {
              assert LogTable(ExpTable(42)) == 42;
            } else {
              assert LogTable(ExpTable(43)) == 43;
            }
          }
        } else {
          if k < 46 {
            if k < 45 {
              assert LogTable(ExpTable(44)) == 44;
            } else {
              assert LogTable(ExpTable(45)) == 45;
            }
          } else {
            if k < 47 {
              assert LogTable(ExpTable(46)) == 46;
            } else {
              assert LogTable(ExpTable(47)) == 47;
            }
          }
        }
      }
    } else {
      if k < 56 {
        if k < 52 {
          if k < 50 {
            if k < 49 {
              assert LogTable(ExpTable(48)) == 48;
            } else {
              assert LogTable(ExpTable(49)) == 49;
            }
          } else {
            if k < 51 {
              assert LogTable(ExpTable(50)) == 50;
            } else {
              assert LogTable(ExpTable(51)) == 51;
            }
          }
        } else {
          if k < 54 {
            if k < 53 {
              assert LogTable(ExpTable(52)) == 52;
            } else {
              assert LogTable(ExpTable(53)) == 53;
            }
          } else {
            if k < 55 {
              assert LogTable(ExpTable(54)) == 54;
            } else {
              assert LogTable(ExpTable(55)) == 55;
            }
          }
        }
      } else {
        if k < 60 {
          if k < 58 {
            if k < 57 {
              assert LogTable(ExpTable(56)) == 56;
            } else {
              assert LogTable(ExpTable(57)) == 57;
            }
          } else {
            if k < 59 {
              assert LogTable(ExpTable(58)) == 58;
            } else {
              assert LogTable(ExpTable(59)) == 59;
            }
          }
        } else {
          if k < 62 {
            if k < 61 {
              assert LogTable(ExpTable(60)) == 60;
            } else {
              assert LogTable(ExpTable(61)) == 61;
            }
          } else {
            if k < 63 {
              assert LogTable(ExpTable(62)) == 62;
            } else {
              assert LogTable(ExpTable(63)) == 63;
            }
          }
        }
      }
    }
  }

  lemma LogTableExpTable64(k: int)
    requires 64 <= k < 96
    ensures LogTable(ExpTable(k)) == k
  {
    if k < 80 {
      if k < 72 {
        if k < 68 {
          if k < 66 {
            if k < 65 {
              assert LogTable(ExpTable(64)) == 64;
            } else {
              assert LogTable(ExpTable(65)) == 65;
            }
          } else {
            if k < 67 {
              assert LogTable(ExpTable(66)) == 66;
            } else {
              assert LogTable(ExpTable(67)) == 67;
            }
          }
        } else {
          if k < 70 {
            if k < 69 {
              assert LogTable(ExpTable(68)) == 68;
            } else {
              assert LogTable(ExpTable(69)) == 69;
            }
          } else {
            if k < 71 {
              assert LogTable(ExpTable(70)) == 70;
            } else {
              assert LogTable(ExpTable(71)) == 71;
            }
          }
        }
      } else {
        if k < 76 {
          if k < 74 {
            if k < 73 {
              assert LogTable(ExpTable(72)) == 72;
            } else {
              assert LogTable(ExpTable(73)) == 73;
            }
          } else {
            if k < 75 {
              assert LogTable(ExpTable(74)) == 74;
            } else {
              assert LogTable(ExpTable(75)) == 75;
            }
          }
        } else {
          if k < 78 {
            if k < 77 {
              assert LogTable(ExpTable(76)) == 76;
            } else {
              assert LogTable(ExpTable(77)) == 77;
            }
          } else {
            if k < 79 {
              assert LogTable(ExpTable(78)) == 78;
            } else {
              assert LogTable(ExpTable(79)) == 79;
            }
          }
        }
      }
    } else {
      if k < 88 {
        if k < 84 {
          if k < 82 {
            if k < 81 {
              assert LogTable(ExpTable(80)) == 80;
            } else {
              assert LogTable(ExpTable(81)) == 81;
            }
          } else {
            if k < 83 {
              assert LogTable(ExpTable(82)) == 82;
            } else {
              assert LogTable(ExpTable(83)) == 83;
            }
          }
        } else {
          if k < 86 {
            if k < 85 {
              assert LogTable(ExpTable(84)) == 84;
            } else {
              assert LogTable(ExpTable(85)) == 85;
            }
          } else {
            if k < 87 {
              assert LogTable(ExpTable(86)) == 86;
            } else {
              assert LogTable(ExpTable(87)) == 87;
            }
          }
        }
      } else {
        if k < 92 {
          if k < 90 {
            if k < 89 {
              assert LogTable(ExpTable(88)) == 88;
            } else {
              assert LogTable(ExpTable(89)) == 89;
            }
          } else {
            if k < 91 {
              assert LogTable(ExpTable(90)) == 90;
            } else {
              assert LogTable(ExpTable(91)) == 91;
            }
          }
        } else {
          if k < 94 {
            if k < 93 {
              assert LogTable(ExpTable(92)) == 92;
            } else {
              assert LogTable(ExpTable(93)) == 93;
            }
          } else {
            if k < 95 {
              assert LogTable(ExpTable(94)) == 94;
            } else {
              assert LogTable(ExpTable(95)) == 95;
            }
          }
        }
      }
    }
  }

  lemma LogTableExpTable96(k: int)
    requires 96 <= k < 128
    ensures LogTable(ExpTable(k)) == k
  {
    if k < 112 {
      if k < 104 {
        if k < 100 {
          if k < 98 {
            if k < 97 {
              assert LogTable(ExpTable(96)) == 96;
            } else {
              assert LogTable(ExpTable(97)) == 97;
            }
          } else {
            if k < 99 {
              assert LogTable(ExpTable(98)) == 98;
            } else {
              assert LogTable(ExpTable(99)) == 99;
            }
          }
        } else {
          if k < 102 {
            if k < 101 {
              assert LogTable(ExpTable(100)) == 100;
            } else {
              assert LogTable(ExpTable(101)) == 101;
            }
          } else {
            if k < 103 {
              assert LogTable(ExpTable(102)) == 102;
            } else {
              assert LogTable(ExpTable(103)) == 103;
            }
          }
        }
      } else {
        if k < 108 {
          if k < 106 {
            if k < 105 {
              assert LogTable(ExpTable(104)) == 104;
            } else {
              assert LogTable(ExpTable(105)) == 105;
            }
          } else {
            if k < 107 {
              assert LogTable(ExpTable(106)) == 106;
            } else {
              assert LogTable(ExpTable(107)) == 107;
            }
          }
        } else {
          if k < 110 {
            if k < 109 {
              assert LogTable(ExpTable(108)) == 108;
            } else {
              assert LogTable(ExpTable(109)) == 109;
            }
          } else {
            if k < 111 {
              assert LogTable(ExpTable(110)) == 110;
            } else {
              assert LogTable(ExpTable(111)) == 111;
            }
          }
        }
      }
    } else {
      if k < 120 {
        if k < 116 {
          if k < 114 {
            if k < 113 {
              assert LogTable(ExpTable(112)) == 112;
            } else {
              assert LogTable(ExpTable(113)) == 113;
            }
          } else {
            if k < 115 {
              assert LogTable(ExpTable(114)) == 114;
            } else {
              assert LogTable(ExpTable(115)) == 115;
            }
          }
        } else {
          if k < 118 {
            if k < 117 {
              assert LogTable(ExpTable(116)) == 116;
            } else {
              assert LogTable(ExpTable(117)) == 117;
            }
          } else {
            if k < 119 {
              assert LogTable(ExpTable(118)) == 118;
            } else {
              assert LogTable(ExpTable(119)) == 119;
            }
          }
        }
      } else {
        if k < 124 {
          if k < 122 {
            if k < 121 {
              assert LogTable(ExpTable(120)) == 120;
            } else {
              assert LogTable(ExpTable(121)) == 121;
            }
          } else {
            if k < 123 {
              assert LogTable(ExpTable(122)) == 122;
            } else {
              assert LogTable(ExpTable(123)) == 123;
            }
          }
        } else {
          if k < 126 {
            if k < 125 {
              assert LogTable(ExpTable(124)) == 124;
            } else {
              assert LogTable(ExpTable(125)) == 125;
            }
          } else {
            if k < 127 {
              assert LogTable(ExpTable(126)) == 126;
            } else {
              assert LogTable(ExpTable(127)) == 127;
            }
          }
        }
      }
    }
  }

  lemma LogTableExpTable128(k: int)
    requires 128 <= k < 160
    ensures LogTable(ExpTable(k)) == k
  {
    if k < 144 {
      if k < 136 {
        if k < 132 {
          if k < 130 {
            if k < 129 {
              assert LogTable(ExpTable(128)) == 128;
            } else {
              assert LogTable(ExpTable(129)) == 129;
            }
          } else {
            if k < 131 {
              assert LogTable(ExpTable(130)) == 130;
            } else {
              assert LogTable(ExpTable(131)) == 131;
            }
          }
        } else {
          if k < 134 {
            if k < 133 {
              assert LogTable(ExpTable(132)) == 132;
            } else {
              assert LogTable(ExpTable(133)) == 133;
            }
          } else {
            if k < 135 {
              assert LogTable(ExpTable(134)) == 134;
            } else {
              assert LogTable(ExpTable(135)) == 135;
            }
          }
        }
      } else {
        if k < 140 {
          if k < 138 {
            if k < 137 {
              assert LogTable(ExpTable(136)) == 136;
            } else {
              assert LogTable(ExpTable(137)) == 137;
            }
          } else {
            if k < 139 {
              assert LogTable(ExpTable(138)) == 138;
            } else {
              assert LogTable(ExpTable(139)) == 139;
            }
          }
        } else {
          if k < 142 {
            if k < 141 {
              assert LogTable(ExpTable(140)) == 140;
            } else {
              assert LogTable(ExpTable(141)) == 141;
            }
          } else {
            if k < 143 {
              assert LogTable(ExpTable(142)) == 142;
            } else {
              assert LogTable(ExpTable(143)) == 143;
            }
          }
        }
      }
    } else {
      if k < 152 {
        if k < 148 {
          if k < 146 {
            if k < 145 {
              assert LogTable(ExpTable(144)) == 144;
            } else {
              assert LogTable(ExpTable(145)) == 145;
            }
          } else {
            if k < 147 {
              assert LogTable(ExpTable(146)) == 146;
            } else {
              assert LogTable(ExpTable(147)) == 147;
            }
          }
        } else {
          if k < 150 {
            if k < 149 {
              assert LogTable(ExpTable(148)) == 148;
            } else {
              assert LogTable(ExpTable(149)) == 149;
            }
          } else {
            if k < 151 {
              assert LogTable(ExpTable(150)) == 150;
            } else {
              assert LogTable(ExpTable(151)) == 151;
            }
          }
        }
      } else {
        if k < 156 {
          if k < 154 {
            if k < 153 {
              assert LogTable(ExpTable(152)) == 152;
            } else {
              assert LogTable(ExpTable(153)) == 153;
            }
          } else {
            if k < 155 {
              assert LogTable(ExpTable(154)) == 154;
            } else {
              assert LogTable(ExpTable(155)) == 155;
            }
          }
        } else {
          if k < 158 {
            if k < 157 {
              assert LogTable(ExpTable(156)) == 156;
            } else {
              assert LogTable(ExpTable(157)) == 157;
            }
          } else {
            if k < 159 {
              assert LogTable(ExpTable(158)) == 158;
            } else {
              assert LogTable(ExpTable(159)) == 159;
            }
          }
        }
      }
    }
  }

  lemma LogTableExpTable160(k: int)
    requires 160 <= k < 192
    ensures LogTable(ExpTable(k)) == k
  {
    if k < 176 {
      if k < 168 {
        if k < 164 {
          if k < 162 {
            if k < 161 {
              assert LogTable(ExpTable(160)) == 160;
            } else {
              assert LogTable(ExpTable(161)) == 161;
            }
          } else {
            if k < 163 {
              assert LogTable(ExpTable(162)) == 162;
            } else {
              assert LogTable(ExpTable(163)) == 163;
            }
          }
        } else {
          if k < 166 {
            if k < 165 {
              assert LogTable(ExpTable(164)) == 164;
            } else {
              assert LogTable(ExpTable(165)) == 165;
            }
          } else {
            if k < 167 {
              assert LogTable(ExpTable(166)) == 166;
            } else {
              assert LogTable(ExpTable(167)) == 167;
            }
          }
        }
      } else {
        if k < 172 {
          if k < 170 {
            if k < 169 {
              assert LogTable(ExpTable(168)) == 168;
            } else {
              assert LogTable(ExpTable(169)) == 169;
            }
          } else {
            if k < 171 {
              assert LogTable(ExpTable(170)) == 170;
            } else {
              assert LogTable(ExpTable(171)) == 171;
            }
          }
        } else {
          if k < 174 {
            if k < 173 {
              assert LogTable(ExpTable(172)) == 172;
            } else {
              assert LogTable(ExpTable(173)) == 173;
            }
          } else {
            if k < 175 {
              assert LogTable(ExpTable(174)) == 174;
            } else {
              assert LogTable(ExpTable(175)) == 175;
            }
          }
        }
      }
    } else {
      if k < 184 {
        if k < 180 {
          if k < 178 {
            if k < 177 {
              assert LogTable(ExpTable(176)) == 176;
            } else {
              assert LogTable(ExpTable(177)) == 177;
            }
          } else {
            if k < 179 {
              assert LogTable(ExpTable(178)) == 178;
            } else {
              assert LogTable(ExpTable(179)) == 179;
            }
          }
        } else {
          if k < 182 {
            if k < 181 {
              assert LogTable(ExpTable(180)) == 180;
            } else {
              assert LogTable(ExpTable(181)) == 181;
            }
          } else {
            if k < 183 {
              assert LogTable(ExpTable(182)) == 182;
            } else {
              assert LogTable(ExpTable(183)) == 183;
            }
          }
        }
      } else {
        if k < 188 {
          if k < 186 {
            if k < 185 {
              assert LogTable(ExpTable(184)) == 184;
            } else {
              assert LogTable(ExpTable(185)) == 185;
            }
          } else {
            if k < 187 {
              assert LogTable(ExpTable(186)) == 186;
            } else {
              assert LogTable(ExpTable(187)) == 187;
            }
          }
        } else {
          if k < 190 {
            if k < 189 {
              assert LogTable(ExpTable(188)) == 188;
            } else {
              assert LogTable(ExpTable(189)) == 189;
            }
          } else {
            if k < 191 {
              assert LogTable(ExpTable(190)) == 190;
            } else {
              assert LogTable(ExpTable(191)) == 191;
            }
          }
        }
      }
    }
  }

  lemma LogTableExpTable192(k: int)
    requires 192 <= k < 224
    ensures LogTable(ExpTable(k)) == k
  {
    if k < 208 {
      if k < 200 {
        if k < 196 {
          if k < 194 {
            if k < 193 {
              assert LogTable(ExpTable(192)) == 192;
            } else {
              assert LogTable(ExpTable(193)) == 193;
            }
          } else {
            if k < 195 {
              assert LogTable(ExpTable(194)) == 194;
            } else {
              assert LogTable(ExpTable(195)) == 195;
            }
          }
        } else {
          if k < 198 {
            if k < 197 {
              assert LogTable(ExpTable(196)) == 196;
            } else {
              assert LogTable(ExpTable(197)) == 197;
            }
          } else {
            if k < 199 {
              assert LogTable(ExpTable(198)) == 198;
            } else {
              assert LogTable(ExpTable(199)) == 199;
            }
          }
        }
      } else {
        if k < 204 {
          if k < 202 {
            if k < 201 {
              assert LogTable(ExpTable(200)) == 200;
            } else {
              assert LogTable(ExpTable(201)) == 201;
            }
          } else {
            if k < 203 {
              assert LogTable(ExpTable(202)) == 202;
            } else {
              assert LogTable(ExpTable(203)) == 203;
            }
          }
        } else {
          if k < 206 {
            if k < 205 {
              assert LogTable(ExpTable(204)) == 204;
            } else {
              assert LogTable(ExpTable(205)) == 205;
            }
          } else {
            if k < 207 {
              assert LogTable(ExpTable(206)) == 206;
            } else {
              assert LogTable(ExpTable(207)) == 207;
            }
          }
        }
      }
    } else {
      if k < 216 {
        if k < 212 {
          if k < 210 {
            if k < 209 {
              assert LogTable(ExpTable(208)) == 208;
            } else {
              assert LogTable(ExpTable(209)) == 209;
            }
          } else {
            if k < 211 {
              assert LogTable(ExpTable(210)) == 210;
            } else {
              assert LogTable(ExpTable(211)) == 211;
            }
          }
        } else {
          if k < 214 {
            if k < 213 {
              assert LogTable(ExpTable(212)) == 212;
            } else {
              assert LogTable(ExpTable(213)) == 213;
            }
          } else {
            if k < 215 {
              assert LogTable(ExpTable(214)) == 214;
            } else {
              assert LogTable(ExpTable(215)) == 215;
            }
          }
        }
      } else {
        if k < 220 {
          if k < 218 {
            if k < 217 {
              assert LogTable(ExpTable(216)) == 216;
            } else {
              assert LogTable(ExpTable(217)) == 217;
            }
          } else {
            if k < 219 {
              assert LogTable(ExpTable(218)) == 218;
            } else {
              assert LogTable(ExpTable(219)) == 219;
            }
          }
        } else {
          if k < 222 {
            if k < 221 {
              assert LogTable(ExpTable(220)) == 220;
            } else {
              assert LogTable(ExpTable(221)) == 221;
            }
          } else {
            if k < 223 {
              assert LogTable(ExpTable(222)) == 222;
            } else {
              assert LogTable(ExpTable(223)) == 223;
            }
          }
        }
      }
    }
  }

  lemma LogTableExpTable224(k: int)
    requires 224 <= k < 255
    ensures LogTable(ExpTable(k)) == k
  {
    if k < 239 {
      if k < 231 {
        if k < 227 {
          if k < 225 {
            assert LogTable(ExpTable(224)) == 224;
          } else {
            if k < 226 {
              assert LogTable(ExpTable(225)) == 225;
            } else {
              assert LogTable(ExpTable(226)) == 226;
            }
          }
        } else {
          if k < 229 {
            if k < 228 {
              assert LogTable(ExpTable(227)) == 227;
            } else {
              assert LogTable(ExpTable(228)) == 228;
            }
          } else {
            if k < 230 {
              assert LogTable(ExpTable(229)) == 229;
            } else {
              assert LogTable(ExpTable(230)) == 230;
            }
          }
        }
      } else {
        if k < 235 {
          if k < 233 {
            if k < 232 {
              assert LogTable(ExpTable(231)) == 231;
            } else {
              assert LogTable(ExpTable(232)) == 232;
            }
          } else {
            if k < 234 {
              assert LogTable(ExpTable(233)) == 233;
            } else {
              assert LogTable(ExpTable(234)) == 234;
            }
          }
        } else {
          if k < 237 {
            if k < 236 {
              assert LogTable(ExpTable(235)) == 235;
            } else {
              assert LogTable(ExpTable(236)) == 236;
            }
          } else {
            if k < 238 {
              assert LogTable(ExpTable(237)) == 237;
            } else {
              assert LogTable(ExpTable(238)) == 238;
            }
          }
        }
      }
    } else {
      if k < 247 {
        if k < 243 {
          if k < 241 {
            if k < 240 {
              assert LogTable(ExpTable(239)) == 239;
            } else {
              assert LogTable(ExpTable(240)) == 240;
            }
          } else {
            if k < 242 {
              assert LogTable(ExpTable(241)) == 241;
            } else {
              assert LogTable(ExpTable(242)) == 242;
            }
          }
        } else {
          if k < 245 {
            if k < 244 {
              assert LogTable(ExpTable(243)) == 243;
            } else {
              assert LogTable(ExpTable(244)) == 244;
            }
          } else {
            if k < 246 {
              assert LogTable(ExpTable(245)) == 245;
            } else {
              assert LogTable(ExpTable(246)) == 246;
            }
          }
        }
      } else {
        if k < 251 {
          if k < 249 {
            if k < 248 {
              assert LogTable(ExpTable(247)) == 247;
            } else {
              assert LogTable(ExpTable(248)) == 248;
            }
          } else {
            if k < 250 {
              assert LogTable(ExpTable(249)) == 249;
            } else {
              assert LogTable(ExpTable(250)) == 250;
            }
          }
        } else {
          if k < 253 {
            if k < 252 {
              assert LogTable(ExpTable(251)) == 251;
            } else {
              assert LogTable(ExpTable(252)) == 252;
            }
          } else {
            if k < 254 {
              assert LogTable(ExpTable(253)) == 253;
            } else {
              assert LogTable(ExpTable(254)) == 254;
            }
          }
        }
      }
    }
  }

  /** The logarithm table inverts the exponent table below 255. */
  lemma LogTableExpTable(k: int)
    requires 0 <= k < 255
    ensures LogTable(ExpTable(k)) == k
  {
    if k < 32 {
      LogTableExpTable0(k);
    } else if k < 64 {
      LogTableExpTable32(k);
    } else if k < 96 {
      LogTableExpTable64(k);
    } else if k < 128 {
      LogTableExpTable96(k);
    } else if k < 160 {
      LogTableExpTable128(k);
    } else if k < 192 {
      LogTableExpTable160(k);
    } else if k < 224 {
      LogTableExpTable192(k);
    } else {
      LogTableExpTable224(k);
    }
  }

  lemma ExpTableLogTable0(a: bv8)
    requires 1 <= a < 32
    ensures ExpTable(LogTable(a)) == a
  {
    if a < 16 {
      if a < 8 {
        if a < 4 {
          if a < 2 {
            assert ExpTable(LogTable(1)) == 1;
          } else {
            if a < 3 {
              assert ExpTable(LogTable(2)) == 2;
            } else {
              assert ExpTable(LogTable(3)) == 3;
            }
          }
        } else {
          if a < 6 {
            if a < 5 {
              assert ExpTable(LogTable(4)) == 4;
            } else {
              assert ExpTable(LogTable(5)) == 5;
            }
          } else {
            if a < 7 {
              assert ExpTable(LogTable(6)) == 6;
            } else {
              assert ExpTable(LogTable(7)) == 7;
            }
          }
        }
      } else {
        if a < 12 {
          if a < 10 {
            if a < 9 {
              assert ExpTable(LogTable(8)) == 8;
            } else {
              assert ExpTable(LogTable(9)) == 9;
            }
          } else {
            if a < 11 {
              assert ExpTable(LogTable(10)) == 10;
            } else {
              assert ExpTable(LogTable(11)) == 11;
            }
          }
        } else {
          if a < 14 {
            if a < 13 {
              assert ExpTable(LogTable(12)) == 12;
            } else {
              assert ExpTable(LogTable(13)) == 13;
            }
          } else {
            if a < 15 {
              assert ExpTable(LogTable(14)) == 14;
            } else {
              assert ExpTable(LogTable(15)) == 15;
            }
          }
        }
      }
    } else {
      if a < 24 {
        if a < 20 {
          if a < 18 {
            if a < 17 {
              assert ExpTable(LogTable(16)) == 16;
            } else {
              assert ExpTable(LogTable(17)) == 17;
            }
          } else {
            if a < 19 {
              assert ExpTable(LogTable(18)) == 18;
            } else {
              assert ExpTable(LogTable(19)) == 19;
            }
          }
        } else {
          if a < 22 {
            if a < 21 {
              assert ExpTable(LogTable(20)) == 20;
            } else {
              assert ExpTable(LogTable(21)) == 21;
            }
          } else {
            if a < 23 {
              assert ExpTable(LogTable(22)) == 22;
            } else {
              assert ExpTable(LogTable(23)) == 23;
            }
          }
        }
      } else {
        if a < 28 {
          if a < 26 {
            if a < 25 {
              assert ExpTable(LogTable(24)) == 24;
            } else {
              assert ExpTable(LogTable(25)) == 25;
            }
          } else {
            if a < 27 {
              assert ExpTable(LogTable(26)) == 26;
            } else {
              assert ExpTable(LogTable(27)) == 27;
            }
          }
        } else {
          if a < 30 {
            if a < 29 {
              assert ExpTable(LogTable(28)) == 28;
            } else {
              assert ExpTable(LogTable(29)) == 29;
            }
          } else {
            if a < 31 {
              assert ExpTable(LogTable(30)) == 30;
            } else {
              assert ExpTable(LogTable(31)) == 31;
            }
          }
        }
      }
    }
  }

  lemma ExpTableLogTable32(a: bv8)
    requires 32 <= a < 64
    ensures ExpTable(LogTable(a)) == a
  {
    if a < 48 {
      if a < 40 {
        if a < 36 {
          if a < 34 {
            if a < 33 {
              assert ExpTable(LogTable(32)) == 32;
            } else {
              assert ExpTable(LogTable(33)) == 33;
            }
          } else {
            if a < 35 {
              assert ExpTable(LogTable(34)) == 34;
            } else {
              assert ExpTable(LogTable(35)) == 35;
            }
          }
        } else {
          if a < 38 {
            if a < 37 {
              assert ExpTable(LogTable(36)) == 36;
            } else {
              assert ExpTable(LogTable(37)) == 37;
            }
          } else {
            if a < 39 {
              assert ExpTable(LogTable(38)) == 38;
            } else {
              assert ExpTable(LogTable(39)) == 39;
            }
          }
        }
      } else {
        if a < 44 {
          if a < 42 {
            if a < 41 {
              assert ExpTable(LogTable(40)) == 40;
            } else {
              assert ExpTable(LogTable(41)) == 41;
            }
          } else {
            if a < 43 {
              assert ExpTable(LogTable(42)) == 42;
            } else {
              assert ExpTable(LogTable(43)) == 43;
            }
          }
        } else {
          if a < 46 {
            if a < 45 {
              assert ExpTable(LogTable(44)) == 44;
            } else {
              assert ExpTable(LogTable(45)) == 45;
            }
          } else {
            if a < 47 {
              assert ExpTable(LogTable(46)) == 46;
            } else {
              assert ExpTable(LogTable(47)) == 47;
            }
          }
        }
      }
    } else {
      if a < 56 {
        if a < 52 {
          if a < 50 {
            if a < 49 {
              assert ExpTable(LogTable(48)) == 48;
            } else {
              assert ExpTable(LogTable(49)) == 49;
            }
          } else {
            if a < 51 {
              assert ExpTable(LogTable(50)) == 50;
            } else {
              assert ExpTable(LogTable(51)) == 51;
            }
          }
        } else {
          if a < 54 {
            if a < 53 {
              assert ExpTable(LogTable(52)) == 52;
            } else {
              assert ExpTable(LogTable(53)) == 53;
            }
          } else {
            if a < 55 {
              assert ExpTable(LogTable(54)) == 54;
            } else {
              assert ExpTable(LogTable(55)) == 55;
            }
          }
        }
      } else {
        if a < 60 {
          if a < 58 {
            if a < 57 {
              assert ExpTable(LogTable(56)) == 56;
            } else {
              assert ExpTable(LogTable(57)) == 57;
            }
          } else {
            if a < 59 {
              assert ExpTable(LogTable(58)) == 58;
            } else {
              assert ExpTable(LogTable(59)) == 59;
            }
          }
        } else {
          if a < 62 {
            if a < 61 {
              assert ExpTable(LogTable(60)) == 60;
            } else {
              assert ExpTable(LogTable(61)) == 61;
            }
          } else {
            if a < 63 {
              assert ExpTable(LogTable(62)) == 62;
            } else {
              assert ExpTable(LogTable(63)) == 63;
            }
          }
        }
      }
    }
  }

  lemma ExpTableLogTable64(a: bv8)
    requires 64 <= a < 96
    ensures ExpTable(LogTable(a)) == a
  {
    if a < 80 {
      if a < 72 {
        if a < 68 {
          if a < 66 {
            if a < 65 {
              assert ExpTable(LogTable(64)) == 64;
            } else {
              assert ExpTable(LogTable(65)) == 65;
            }
          } else {
            if a < 67 {
              assert ExpTable(LogTable(66)) == 66;
            } else {
              assert ExpTable(LogTable(67)) == 67;
            }
          }
        } else {
          if a < 70 {
            if a < 69 {
              assert ExpTable(LogTable(68)) == 68;
            } else {
              assert ExpTable(LogTable(69)) == 69;
            }
          } else {
            if a < 71 {
              assert ExpTable(LogTable(70)) == 70;
            } else {
              assert ExpTable(LogTable(71)) == 71;
            }
          }
        }
      } else {
        if a < 76 {
          if a < 74 {
            if a < 73 {
              assert ExpTable(LogTable(72)) == 72;
            } else {
              assert ExpTable(LogTable(73)) == 73;
            }
          } else {
            if a < 75 {
              assert ExpTable(LogTable(74)) == 74;
            } else {
              assert ExpTable(LogTable(75)) == 75;
            }
          }
        } else {
          if a < 78 {
            if a < 77 {
              assert ExpTable(LogTable(76)) == 76;
            } else {
              assert ExpTable(LogTable(77)) == 77;
            }
          } else {
            if a < 79 {
              assert ExpTable(LogTable(78)) == 78;
            } else {
              assert ExpTable(LogTable(79)) == 79;
            }
          }
        }
      }
    } else {
      if a < 88 {
        if a < 84 {
          if a < 82 {
            if a < 81 {
              assert ExpTable(LogTable(80)) == 80;
            } else {
              assert ExpTable(LogTable(81)) == 81;
            }
          } else {
            if a < 83 {
              assert ExpTable(LogTable(82)) == 82;
            } else {
              assert ExpTable(LogTable(83)) == 83;
            }
          }
        } else {
          if a < 86 {
            if a < 85 {
              assert ExpTable(LogTable(84)) == 84;
            } else {
              assert ExpTable(LogTable(85)) == 85;
            }
          } else {
            if a < 87 {
              assert ExpTable(LogTable(86)) == 86;
            } else {
              assert ExpTable(LogTable(87)) == 87;
            }
          }
        }
      } else {
        if a < 92 {
          if a < 90 {
            if a < 89 {
              assert ExpTable(LogTable(88)) == 88;
            } else {
              assert ExpTable(LogTable(89)) == 89;
            }
          } else {
            if a < 91 {
              assert ExpTable(LogTable(90)) == 90;
            } else {
              assert ExpTable(LogTable(91)) == 91;
            }
          }
        } else {
          if a < 94 {
            if a < 93 {
              assert ExpTable(LogTable(92)) == 92;
            } else {
              assert ExpTable(LogTable(93)) == 93;
            }
          } else {
            if a < 95 {
              assert ExpTable(LogTable(94)) == 94;
            } else {
              assert ExpTable(LogTable(95)) == 95;
            }
          }
        }
      }
    }
  }

  lemma ExpTableLogTable96(a: bv8)
    requires 96 <= a < 128
    ensures ExpTable(LogTable(a)) == a
  {
    if a < 112 {
      if a < 104 {
        if a < 100 {
          if a < 98 {
            if a < 97 {
              assert ExpTable(LogTable(96)) == 96;
            } else {
              assert ExpTable(LogTable(97)) == 97;
            }
          } else {
            if a < 99 {
              assert ExpTable(LogTable(98)) == 98;
            } else {
              assert ExpTable(LogTable(99)) == 99;
            }
          }
        } else {
          if a < 102 {
            if a < 101 {
              assert ExpTable(LogTable(100)) == 100;
            } else {
              assert ExpTable(LogTable(101)) == 101;
            }
          } else {
            if a < 103 {
              assert ExpTable(LogTable(102)) == 102;
            } else {
              assert ExpTable(LogTable(103)) == 103;
            }
          }
        }
      } else {
        if a < 108 {
          if a < 106 {
            if a < 105 {
              assert ExpTable(LogTable(104)) == 104;
            } else {
              assert ExpTable(LogTable(105)) == 105;
            }
          } else {
            if a < 107 {
              assert ExpTable(LogTable(106)) == 106;
            } else {
              assert ExpTable(LogTable(107)) == 107;
            }
          }
        } else {
          if a < 110 {
            if a < 109 {
              assert ExpTable(LogTable(108)) == 108;
            } else {
              assert ExpTable(LogTable(109)) == 109;
            }
          } else {
            if a < 111 {
              assert ExpTable(LogTable(110)) == 110;
            } else {
              assert ExpTable(LogTable(111)) == 111;
            }
          }
        }
      }
    } else {
      if a < 120 {
        if a < 116 {
          if a < 114 {
            if a < 113 {
              assert ExpTable(LogTable(112)) == 112;
            } else {
              assert ExpTable(LogTable(113)) == 113;
            }
          } else {
            if a < 115 {
              assert ExpTable(LogTable(114)) == 114;
            } else {
              assert ExpTable(LogTable(115)) == 115;
            }
          }
        } else {
          if a < 118 {
            if a < 117 {
              assert ExpTable(LogTable(116)) == 116;
            } else {
              assert ExpTable(LogTable(117)) == 117;
            }
          } else {
            if a < 119 {
              assert ExpTable(LogTable(118)) == 118;
            } else {
              assert ExpTable(LogTable(119)) == 119;
            }
          }
        }
      } else {
        if a < 124 {
          if a < 122 {
            if a < 121 {
              assert ExpTable(LogTable(120)) == 120;
            } else {
              assert ExpTable(LogTable(121)) == 121;
            }
          } else {
            if a < 123 {
              assert ExpTable(LogTable(122)) == 122;
            } else {
              assert ExpTable(LogTable(123)) == 123;
            }
          }
        } else {
          if a < 126 {
            if a < 125 {
              assert ExpTable(LogTable(124)) == 124;
            } else {
              assert ExpTable(LogTable(125)) == 125;
            }
          } else {
            if a < 127 {
              assert ExpTable(LogTable(126)) == 126;
            } else {
              assert ExpTable(LogTable(127)) == 127;
            }
          }
        }
      }
    }
  }

  lemma ExpTableLogTable128(a: bv8)
    requires 128 <= a < 160
    ensures ExpTable(LogTable(a)) == a
  {
    if a < 144 {
      if a < 136 {
        if a < 132 {
          if a < 130 {
            if a < 129 {
              assert ExpTable(LogTable(128)) == 128;
            } else {
              assert ExpTable(LogTable(129)) == 129;
            }
          } else {
            if a < 131 {
              assert ExpTable(LogTable(130)) == 130;
            } else {
              assert ExpTable(LogTable(131)) == 131;
            }
          }
        } else {
          if a < 134 {
            if a < 133 {
              assert ExpTable(LogTable(132)) == 132;
            } else {
              assert ExpTable(LogTable(133)) == 133;
            }
          } else {
            if a < 135 {
              assert ExpTable(LogTable(134)) == 134;
            } else {
              assert ExpTable(LogTable(135)) == 135;
            }
          }
        }
      } else {
        if a < 140 {
          if a < 138 {
            if a < 137 {
              assert ExpTable(LogTable(136)) == 136;
            } else {
              assert ExpTable(LogTable(137)) == 137;
            }
          } else {
            if a < 139 {
              assert ExpTable(LogTable(138)) == 138;
            } else {
              assert ExpTable(LogTable(139)) == 139;
            }
          }
        } else {
          if a < 142 {
            if a < 141 {
              assert ExpTable(LogTable(140)) == 140;
            } else {
              assert ExpTable(LogTable(141)) == 141;
            }
          } else {
            if a < 143 {
              assert ExpTable(LogTable(142)) == 142;
            } else {
              assert ExpTable(LogTable(143)) == 143;
            }
          }
        }
      }
    } else {
      if a < 152 {
        if a < 148 {
          if a < 146 {
            if a < 145 {
              assert ExpTable(LogTable(144)) == 144;
            } else {
              assert ExpTable(LogTable(145)) == 145;
            }
          } else {
            if a < 147 {
              assert ExpTable(LogTable(146)) == 146;
            } else {
              assert ExpTable(LogTable(147)) == 147;
            }
          }
        } else {
          if a < 150 {
            if a < 149 {
              assert ExpTable(LogTable(148)) == 148;
            } else {
              assert ExpTable(LogTable(149)) == 149;
            }
          } else {
            if a < 151 {
              assert ExpTable(LogTable(150)) == 150;
            } else {
              assert ExpTable(LogTable(151)) == 151;
            }
          }
        }
      } else {
        if a < 156 {
          if a < 154 {
            if a < 153 {
              assert ExpTable(LogTable(152)) == 152;
            } else {
              assert ExpTable(LogTable(153)) == 153;
            }
          } else {
            if a < 155 {
              assert ExpTable(LogTable(154)) == 154;
            } else {
              assert ExpTable(LogTable(155)) == 155;
            }
          }
        } else {
          if a < 158 {
            if a < 157 {
              assert ExpTable(LogTable(156)) == 156;
            } else {
              assert ExpTable(LogTable(157)) == 157;
            }
          } else {
            if a < 159 {
              assert ExpTable(LogTable(158)) == 158;
            } else {
              assert ExpTable(LogTable(159)) == 159;
            }
          }
        }
      }
    }
  }

  lemma ExpTableLogTable160(a: bv8)
    requires 160 <= a < 192
    ensures ExpTable(LogTable(a)) == a
  {
    if a < 176 {
      if a < 168 {
        if a < 164 {
          if a < 162 {
            if a < 161 {
              assert ExpTable(LogTable(160)) == 160;
            } else {
              assert ExpTable(LogTable(161)) == 161;
            }
          } else {
            if a < 163 {
              assert ExpTable(LogTable(162)) == 162;
            } else {
              assert ExpTable(LogTable(163)) == 163;
            }
          }
        } else {
          if a < 166 {
            if a < 165 {
              assert ExpTable(LogTable(164)) == 164;
            } else {
              assert ExpTable(LogTable(165)) == 165;
            }
          } else {
            if a < 167 {
              assert ExpTable(LogTable(166)) == 166;
            } else {
              assert ExpTable(LogTable(167)) == 167;
            }
          }
        }
      } else {
        if a < 172 {
          if a < 170 {
            if a < 169 {
              assert ExpTable(LogTable(168)) == 168;
            } else {
              assert ExpTable(LogTable(169)) == 169;
            }
          } else {
            if a < 171 {
              assert ExpTable(LogTable(170)) == 170;
            } else {
              assert ExpTable(LogTable(171)) == 171;
            }
          }
        } else {
          if a < 174 {
            if a < 173 {
              assert ExpTable(LogTable(172)) == 172;
            } else {
              assert ExpTable(LogTable(173)) == 173;
            }
          } else {
            if a < 175 {
              assert ExpTable(LogTable(174)) == 174;
            } else {
              assert ExpTable(LogTable(175)) == 175;
            }
          }
        }
      }
    } else {
      if a < 184 {
        if a < 180 {
          if a < 178 {
            if a < 177 {
              assert ExpTable(LogTable(176)) == 176;
            } else {
              assert ExpTable(LogTable(177)) == 177;
            }
          } else {
            if a < 179 {
              assert ExpTable(LogTable(178)) == 178;
            } else {
              assert ExpTable(LogTable(179)) == 179;
            }
          }
        } else {
          if a < 182 {
            if a < 181 {
              assert ExpTable(LogTable(180)) == 180;
            } else {
              assert ExpTable(LogTable(181)) == 181;
            }
          } else {
            if a < 183 {
              assert ExpTable(LogTable(182)) == 182;
            } else {
              assert ExpTable(LogTable(183)) == 183;
            }
          }
        }
      } else {
        if a < 188 {
          if a < 186 {
            if a < 185 {
              assert ExpTable(LogTable(184)) == 184;
            } else {
              assert ExpTable(LogTable(185)) == 185;
            }
          } else {
            if a < 187 {
              assert ExpTable(LogTable(186)) == 186;
            } else {
              assert ExpTable(LogTable(187)) == 187;
            }
          }
        } else {
          if a < 190 {
            if a < 189 {
              assert ExpTable(LogTable(188)) == 188;
            } else {
              assert ExpTable(LogTable(189)) == 189;
            }
          } else {
            if a < 191 {
              assert ExpTable(LogTable(190)) == 190;
            } else {
              assert ExpTable(LogTable(191)) == 191;
            }
          }
        }
      }
    }
  }

  lemma ExpTableLogTable192(a: bv8)
    requires 192 <= a < 224
    ensures ExpTable(LogTable(a)) == a
  {
    if a < 208 {
      if a < 200 {
        if a < 196 {
          if a < 194 {
            if a < 193 {
              assert ExpTable(LogTable(192)) == 192;
            } else {
              assert ExpTable(LogTable(193)) == 193;
            }
          } else {
            if a < 195 {
              assert ExpTable(LogTable(194)) == 194;
            } else {
              assert ExpTable(LogTable(195)) == 195;
            }
          }
        } else {
          if a < 198 {
            if a < 197 {
              assert ExpTable(LogTable(196)) == 196;
            } else {
              assert ExpTable(LogTable(197)) == 197;
            }
          } else {
            if a < 199 {
              assert ExpTable(LogTable(198)) == 198;
            } else {
              assert ExpTable(LogTable(199)) == 199;
            }
          }
        }
      } else {
        if a < 204 {
          if a < 202 {
            if a < 201 {
              assert ExpTable(LogTable(200)) == 200;
            } else {
              assert ExpTable(LogTable(201)) == 201;
            }
          } else {
            if a < 203 {
              assert ExpTable(LogTable(202)) == 202;
            } else {
              assert ExpTable(LogTable(203)) == 203;
            }
          }
        } else {
          if a < 206 {
            if a < 205 {
              assert ExpTable(LogTable(204)) == 204;
            } else {
              assert ExpTable(LogTable(205)) == 205;
            }
          } else {
            if a < 207 {
              assert ExpTable(LogTable(206)) == 206;
            } else {
              assert ExpTable(LogTable(207)) == 207;
            }
          }
        }
      }
    } else {
      if a < 216 {
        if a < 212 {
          if a < 210 {
            if a < 209 {
              assert ExpTable(LogTable(208)) == 208;
            } else {
              assert ExpTable(LogTable(209)) == 209;
            }
          } else {
            if a < 211 {
              assert ExpTable(LogTable(210)) == 210;
            } else {
              assert ExpTable(LogTable(211)) == 211;
            }
          }
        } else {
          if a < 214 {
            if a < 213 {
              assert ExpTable(LogTable(212)) == 212;
            } else {
              assert ExpTable(LogTable(213)) == 213;
            }
          } else {
            if a < 215 {
              assert ExpTable(LogTable(214)) == 214;
            } else {
              assert ExpTable(LogTable(215)) == 215;
            }
          }
        }
      } else {
        if a < 220 {
          if a < 218 {
            if a < 217 {
              assert ExpTable(LogTable(216)) == 216;
            } else {
              assert ExpTable(LogTable(217)) == 217;
            }
          } else {
            if a < 219 {
              assert ExpTable(LogTable(218)) == 218;
            } else {
              assert ExpTable(LogTable(219)) == 219;
            }
          }
        } else {
          if a < 222 {
            if a < 221 {
              assert ExpTable(LogTable(220)) == 220;
            } else {
              assert ExpTable(LogTable(221)) == 221;
            }
          } else {
            if a < 223 {
              assert ExpTable(LogTable(222)) == 222;
            } else {
              assert ExpTable(LogTable(223)) == 223;
            }
          }
        }
      }
    }
  }

  lemma ExpTableLogTable224(a: bv8)
    requires 224 <= a
    ensures ExpTable(LogTable(a)) == a
  {
    if a < 240 {
      if a < 232 {
        if a < 228 {
          if a < 226 {
            if a < 225 {
              assert ExpTable(LogTable(224)) == 224;
            } else {
              assert ExpTable(LogTable(225)) == 225;
            }
          } else {
            if a < 227 {
              assert ExpTable(LogTable(226)) == 226;
            } else {
              assert ExpTable(LogTable(227)) == 227;
            }
          }
        } else {
          if a < 230 {
            if a < 229 {
              assert ExpTable(LogTable(228)) == 228;
            } else {
              assert ExpTable(LogTable(229)) == 229;
            }
          } else {
            if a < 231 {
              assert ExpTable(LogTable(230)) == 230;
            } else {
              assert ExpTable(LogTable(231)) == 231;
            }
          }
        }
      } else {
        if a < 236 {
          if a < 234 {
            if a < 233 {
              assert ExpTable(LogTable(232)) == 232;
            } else {
              assert ExpTable(LogTable(233)) == 233;
            }
          } else {
            if a < 235 {
              assert ExpTable(LogTable(234)) == 234;
            } else {
              assert ExpTable(LogTable(235)) == 235;
            }
          }
        } else {
          if a < 238 {
            if a < 237 {
              assert ExpTable(LogTable(236)) == 236;
            } else {
              assert ExpTable(LogTable(237)) == 237;
            }
          } else {
            if a < 239 {
              assert ExpTable(LogTable(238)) == 238;
            } else {
              assert ExpTable(LogTable(239)) == 239;
            }
          }
        }
      }
    } else {
      if a < 248 {
        if a < 244 {
          if a < 242 {
            if a < 241 {
              assert ExpTable(LogTable(240)) == 240;
            } else {
              assert ExpTable(LogTable(241)) == 241;
            }
          } else {
            if a < 243 {
              assert ExpTable(LogTable(242)) == 242;
            } else {
              assert ExpTable(LogTable(243)) == 243;
            }
          }
        } else {
          if a < 246 {
            if a < 245 {
              assert ExpTable(LogTable(244)) == 244;
            } else {
              assert ExpTable(LogTable(245)) == 245;
            }
          } else {
            if a < 247 {
              assert ExpTable(LogTable(246)) == 246;
            } else {
              assert ExpTable(LogTable(247)) == 247;
            }
          }
        }
      } else {
        if a < 252 {
          if a < 250 {
            if a < 249 {
              assert ExpTable(LogTable(248)) == 248;
            } else {
              assert ExpTable(LogTable(249)) == 249;
            }
          } else {
            if a < 251 {
              assert ExpTable(LogTable(250)) == 250;
            } else {
              assert ExpTable(LogTable(251)) == 251;
            }
          }
        } else {
          if a < 254 {
            if a < 253 {
              assert ExpTable(LogTable(252)) == 252;
            } else {
              assert ExpTable(LogTable(253)) == 253;
            }
          } else {
            if a < 255 {
              assert ExpTable(LogTable(254)) == 254;
            } else {
              assert ExpTable(LogTable(255)) == 255;
            }
          }
        }
      }
    }
  }

  /** The exponent table inverts the logarithm table on nonzero bytes. */
  lemma ExpTableLogTable(a: bv8)
    requires a != 0
    ensures 0 <= LogTable(a) < 255 && ExpTable(LogTable(a)) == a
  {
    LogTableBound(a);
    if a < 32 {
      ExpTableLogTable0(a);
    } else if a < 64 {
      ExpTableLogTable32(a);
    } else if a < 96 {
      ExpTableLogTable64(a);
    } else if a < 128 {
      ExpTableLogTable96(a);
    } else if a < 160 {
      ExpTableLogTable128(a);
    } else if a < 192 {
      ExpTableLogTable160(a);
    } else if a < 224 {
      ExpTableLogTable192(a);
    } else {
      ExpTableLogTable224(a);
    }
  }

  // ---------------------------------------------------------------------
  // The tables hold 3^k and the discrete logarithm

  /** Entry n of the exponent table is 3^n. */
  lemma {:induction false} ExpTableMatches(n: int)
    requires 0 <= n < 256
    ensures ExpTable(n) == Exp(n)
  {
    if n > 0 {
      ExpTableMatches(n - 1);
      ExpStep(n - 1);
    }
  }

  lemma Times3NonZero(a: bv8)
    requires a != 0
    ensures Times3(a) != 0
  {
  }

  lemma {:induction false} ExpNonZero(n: nat)
    ensures Exp(n) != 0
  {
    if n > 0 {
      ExpNonZero(n - 1);
      Times3NonZero(Exp(n - 1));
    }
  }

  /** 3 has order 255. */
  lemma {:induction false} ExpPeriod(n: nat)
    ensures Exp(n + 255) == Exp(n)
  {
    if n == 0 {
      ExpTableMatches(255);
      assert ExpTable(255) == 1;
    } else {
      ExpPeriod(n - 1);
      assert Exp(n + 255) == Times3(Exp(n - 1 + 255));
    }
  }

  lemma {:induction false} ExpMod(n: nat)
    ensures Exp(n % 255) == Exp(n)
    decreases n
  {
    if n >= 255 {
      ExpMod(n - 255);
      ExpPeriod(n - 255);
      assert (n - 255) % 255 == n % 255;
    }
  }

  /** 3^i and 3^j differ for distinct exponents below 255. */
  lemma ExpInjective(i: nat, j: nat)
    requires i < 255 && j < 255 && Exp(i) == Exp(j)
    ensures i == j
  {
    ExpTableMatches(i);
    ExpTableMatches(j);
    LogTableExpTable(i);
    LogTableExpTable(j);
  }

  lemma {:induction false} LogFromFinds(a: bv8, n: nat, m: nat)
    requires n <= m < 255 && Exp(m) == a
    ensures LogFrom(a, n) == m
    decreases m - n
  {
    if n < m {
      if Exp(n) == a {
        ExpInjective(n, m);
      }
      LogFromFinds(a, n + 1, m);
    }
  }

  lemma {:induction false} LogFromZero(n: nat)
    ensures LogFrom(0, n) == 0
    decreases 255 - n
  {
    if n < 255 {
      ExpNonZero(n);
      LogFromZero(n + 1);
    }
  }

  /** The logarithm table holds the discrete logarithm, and 0 at entry 0. */
  lemma LogTableMatches(a: bv8)
    ensures LogTable(a) == Log(a)
  {
    if a == 0 {
      LogFromZero(0);
      assert LogTable(0) == 0;
    } else {
      var m := LogTable(a);
      LogTableBound(a);
      ExpTableMatches(m);
      ExpTableLogTable(a);
      LogFromFinds(a, 0, m);
    }
  }

  lemma {:induction false} LogFromBound(a: bv8, n: nat)
    ensures LogFrom(a, n) < 255
    decreases 255 - n
  {
    if n < 255 && Exp(n) != a {
      LogFromBound(a, n + 1);
    }
  }

  lemma LogBound(a: bv8)
    ensures Log(a) < 255
  {
    LogFromBound(a, 0);
  }

  /** 3 to the logarithm of a nonzero byte is that byte. */
  lemma ExpLog(a: bv8)
    requires a != 0
    ensures Exp(Log(a)) == a
  {
    LogTableMatches(a);
    LogTableBound(a);
    ExpTableMatches(LogTable(a));
    ExpTableLogTable(a);
  }

  /** The logarithm of 3^n is n modulo 255. */
  lemma LogExp(n: nat)
    ensures Log(Exp(n)) == n % 255
  {
    ExpMod(n);
    LogFromFinds(Exp(n), 0, n % 255);
  }

  // ---------------------------------------------------------------------
  // The field operations of the Shamir implementation

  /** Addition is XOR. */
  function Add(a: bv8, b: bv8): bv8 {
    a ^ b
  }

  /** Subtraction is addition. */
  function Sub(a: bv8, b: bv8): bv8 {
    Add(a, b)
  }

  /**
   * Multiplication: zero if either factor is zero, otherwise
   * EXP[(LOG[a] + LOG[b]) % 255].  The product is zero only when a
   * factor is.
   */
  function Mul(a: bv8, b: bv8): (r: bv8)
    ensures r == 0 <==> a == 0 || b == 0
  {
    if a == 0 || b == 0 then 0
    else
      ExpNonZero((Log(a) + Log(b)) % 255);
      Exp((Log(a) + Log(b)) % 255)
  }

  /**
   * Division by a nonzero divisor: zero for a zero dividend, otherwise
   * EXP[(LOG[a] - LOG[b]) % 255] (a non-negative remainder, as in Python).
   * The quotient times the divisor gives back the dividend.
   */
  function Quotient(a: bv8, b: bv8): (r: bv8)
    requires b != 0
    ensures Mul(r, b) == a
  {
    if a == 0 then 0
    else
      QuotientTimesDivisor(a, b);
      Exp((Log(a) - Log(b)) % 255)
  }

  /**
   * _gf256_div: a zero dividend gives zero whatever the divisor (so 0 / 0
   * is 0), a nonzero dividend over zero raises, and otherwise the result
   * is the quotient.
   */
  function Div(a: bv8, b: bv8): (r: Result<bv8>)
    ensures a == 0 ==> r == Ok(0)
    ensures a != 0 && b == 0 ==> r == Err(ZeroDivision)
    ensures b != 0 ==> r.Ok? && Mul(r.value, b) == a
  {
    if a == 0 then Ok(0)
    else if b == 0 then Err(ZeroDivision)
    else Ok(Quotient(a, b))
  }

  /** For nonzero factors the product is the table lookup _gf256_mul does. */
  lemma MulReadsTables(a: bv8, b: bv8)
    requires a != 0 && b != 0
    ensures Mul(a, b) == ExpTable((LogTable(a) + LogTable(b)) % 255)
  {
    LogTableMatches(a);
    LogTableMatches(b);
    ExpTableMatches((Log(a) + Log(b)) % 255);
  }

  /**
   * For a nonzero dividend and divisor the quotient is the table lookup
   * _gf256_div does; Python's % leaves a non-negative index, as Dafny's does.
   */
  lemma QuotientReadsTables(a: bv8, b: bv8)
    requires a != 0 && b != 0
    ensures Quotient(a, b) == ExpTable((LogTable(a) - LogTable(b)) % 255)
  {
    LogDiffIndex(a, b);
    ExpTableMatches((Log(a) - Log(b)) % 255);
  }

  lemma LogDiffIndex(a: bv8, b: bv8)
    ensures (LogTable(a) - LogTable(b)) % 255 == (Log(a) - Log(b)) % 255
  {
    LogTableMatches(a);
    LogTableMatches(b);
  }

  /** Multiplying 3^k by a nonzero x adds the logarithm of x to k. */
  lemma MulExpLeft(k: nat, x: bv8)
    requires x != 0
    ensures Mul(Exp(k), x) == Exp(k + Log(x))
  {
    ExpNonZero(k);
    LogExp(k);
    ModAdd(k, Log(x));
    ExpMod(k + Log(x));
  }

  lemma QuotientTimesDivisor(a: bv8, b: bv8)
    requires a != 0 && b != 0
    ensures Mul(Exp((Log(a) - Log(b)) % 255), b) == a
  {
    ExpShiftLog(a, b);
    MulExpLeft((Log(a) - Log(b)) % 255, b);
  }

  lemma ExpShiftLog(a: bv8, b: bv8)
    requires a != 0 && b != 0
    ensures Exp((Log(a) - Log(b)) % 255 + Log(b)) == a
  {
    LogBound(a);
    LogBound(b);
    ModCancel(Log(a), Log(b));
    ExpMod((Log(a) - Log(b)) % 255 + Log(b));
    ExpLog(a);
  }

  // ---------------------------------------------------------------------
  // Field laws

  lemma AddZero(a: bv8)
    ensures Add(a, 0) == a && Add(0, a) == a
  {
  }

  lemma AddSelfInverse(a: bv8, b: bv8)
    ensures Sub(Add(a, b), b) == a
  {
  }

  lemma AddAssoc(a: bv8, b: bv8, c: bv8)
    ensures Add(a, Add(b, c)) == Add(Add(a, b), c)
  {
    assert a ^ (b ^ c) == (a ^ b) ^ c;
  }

  /** The four-term rearrangement that sums of polynomials need. */
  lemma AddRegroup(a: bv8, b: bv8, e: bv8, f: bv8)
    ensures Add(Add(a, b), Add(e, f)) == Add(Add(a, e), Add(b, f))
  {
    assert (a ^ b) ^ (e ^ f) == (a ^ e) ^ (b ^ f);
  }

  lemma MulComm(a: bv8, b: bv8)
    ensures Mul(a, b) == Mul(b, a)
  {
  }

  lemma LogOne()
    ensures Log(1) == 0
  {
    LogExp(0);
  }

  lemma MulOneRight(a: bv8)
    ensures Mul(a, 1) == a
  {
    if a != 0 {
      LogOne();
      LogBound(a);
      ExpLog(a);
    }
  }

  lemma MulOne(a: bv8)
    ensures Mul(a, 1) == a && Mul(1, a) == a
  {
    MulOneRight(a);
    MulComm(a, 1);
  }

  lemma MulExp(i: nat, j: nat)
    ensures Mul(Exp(i), Exp(j)) == Exp(i + j)
  {
    ExpNonZero(j);
    MulExpLeft(i, Exp(j));
    LogExp(j);
    ExpMod(i + j);
    ModAdd(j, i);
    ExpMod(i + j % 255);
  }

  lemma MulExpLeftAssoc(i: nat, j: nat, k: nat)
    ensures Mul(Mul(Exp(i), Exp(j)), Exp(k)) == Exp(i + j + k)
  {
    MulExp(i, j);
    MulExp(i + j, k);
  }

  lemma MulExpRightAssoc(i: nat, j: nat, k: nat)
    ensures Mul(Exp(i), Mul(Exp(j), Exp(k))) == Exp(i + j + k)
  {
    MulExp(j, k);
    MulExp(i, j + k);
  }

  lemma MulAssoc(a: bv8, b: bv8, c: bv8)
    ensures Mul(Mul(a, b), c) == Mul(a, Mul(b, c))
  {
    if a != 0 && b != 0 && c != 0 {
      ExpLog(a);
      ExpLog(b);
      ExpLog(c);
      MulExpLeftAssoc(Log(a), Log(b), Log(c));
      MulExpRightAssoc(Log(a), Log(b), Log(c));
    }
  }

  lemma ShiftXor(x: bv8, y: bv8)
    ensures (x ^ y) << 1 == (x << 1) ^ (y << 1)
  {
  }

  lemma TopBitXor(x: bv8, y: bv8)
    ensures (x ^ y) & 0x80 == (x & 0x80) ^ (y & 0x80)
  {
  }

  lemma XtimeLinear(x: bv8, y: bv8)
    ensures Xtime(x ^ y) == Xtime(x) ^ Xtime(y)
  {
    ShiftXor(x, y);
    TopBitXor(x, y);
    if x & 0x80 == 0 {
      if y & 0x80 == 0 {
        assert (x ^ y) & 0x80 == 0;
      } else {
        assert (x ^ y) & 0x80 != 0;
      }
    } else {
      if y & 0x80 == 0 {
        assert (x ^ y) & 0x80 != 0;
      } else {
        assert (x ^ y) & 0x80 == 0;
      }
    }
  }

  lemma Times3Linear(x: bv8, y: bv8)
    ensures Times3(x ^ y) == Times3(x) ^ Times3(y)
  {
    XtimeLinear(x, y);
  }

  /** Multiplying by 3^n is multiplying by 3^(n-1) and then by 3. */
  lemma MulExpPred(n: nat, x: bv8)
    requires n > 0
    ensures Mul(Exp(n), x) == Times3(Mul(Exp(n - 1), x))
  {
    if x == 0 {
      assert Times3(0) == 0;
    } else {
      MulExpLeft(n, x);
      MulExpLeft(n - 1, x);
      assert Exp(n + Log(x)) == Times3(Exp(n - 1 + Log(x)));
    }
  }

  /** Multiplication by 3, n times over. */
  function Times3Pow(n: nat, x: bv8): bv8 {
    if n == 0 then x else Times3(Times3Pow(n - 1, x))
  }

  /** Multiplying by 3^n is n-fold multiplication by 3. */
  lemma {:induction false} MulExpIter(n: nat, x: bv8)
    ensures Mul(Exp(n), x) == Times3Pow(n, x)
  {
    if n == 0 {
      MulOne(x);
    } else {
      MulExpIter(n - 1, x);
      MulExpPred(n, x);
    }
  }

  /*
   * The linearity of Times3Pow is proved on bytes in a box: an equation
   * between boxes is closed by congruence, while one between bare
   * bytes sends the solver into their bits.
   */
  datatype Cell = Cell(v: bv8)

  function CellAdd(a: Cell, b: Cell): Cell {
    Cell(a.v ^ b.v)
  }

  function CellTimes3(a: Cell): Cell {
    Cell(Times3(a.v))
  }

  function CellTimes3Pow(n: nat, a: Cell): Cell {
    if n == 0 then a else CellTimes3(CellTimes3Pow(n - 1, a))
  }

  lemma CellTimes3OfSum(a: Cell, b: Cell)
    ensures CellTimes3(CellAdd(a, b)) == Cell(Times3(a.v ^ b.v))
  {
  }

  lemma CellTimes3Split(a: Cell, b: Cell)
    ensures Cell(Times3(a.v ^ b.v)) == Cell(Times3(a.v) ^ Times3(b.v))
  {
    Times3Linear(a.v, b.v);
  }

  lemma CellSumOfTimes3(a: Cell, b: Cell)
    ensures Cell(Times3(a.v) ^ Times3(b.v)) == CellAdd(CellTimes3(a), CellTimes3(b))
  {
  }

  lemma CellTimes3Linear(a: Cell, b: Cell)
    ensures CellTimes3(CellAdd(a, b)) == CellAdd(CellTimes3(a), CellTimes3(b))
  {
    CellTimes3OfSum(a, b);
    CellTimes3Split(a, b);
    CellSumOfTimes3(a, b);
  }

  lemma {:induction false} CellTimes3PowLinear(n: nat, a: Cell, b: Cell)
    ensures CellTimes3Pow(n, CellAdd(a, b)) == CellAdd(CellTimes3Pow(n, a), CellTimes3Pow(n, b))
  {
    if n > 0 {
      CellTimes3PowLinear(n - 1, a, b);
      CellTimes3Linear(CellTimes3Pow(n - 1, a), CellTimes3Pow(n - 1, b));
    }
  }

  lemma {:induction false} CellTimes3PowMatches(n: nat, x: bv8)
    ensures CellTimes3Pow(n, Cell(x)) == Cell(Times3Pow(n, x))
  {
    if n > 0 {
      CellTimes3PowMatches(n - 1, x);
    }
  }

  /** Multiplying by 3 any number of times is XOR-linear. */
  lemma Times3PowLinear(n: nat, x: bv8, y: bv8)
    ensures Times3Pow(n, x ^ y) == Times3Pow(n, x) ^ Times3Pow(n, y)
  {
    CellTimes3PowLinear(n, Cell(x), Cell(y));
    CellTimes3PowMatches(n, x);
    CellTimes3PowMatches(n, y);
    CellTimes3PowMatches(n, x ^ y);
    assert CellAdd(Cell(x), Cell(y)) == Cell(x ^ y);
  }

  lemma MulDistribLeft(a: bv8, b: bv8, c: bv8)
    ensures Mul(a, b ^ c) == Mul(a, b) ^ Mul(a, c)
  {
    if a != 0 {
      ExpLog(a);
      MulExpIter(Log(a), b);
      MulExpIter(Log(a), c);
      MulExpIter(Log(a), b ^ c);
      Times3PowLinear(Log(a), b, c);
    }
  }

  lemma MulDistrib(a: bv8, b: bv8, c: bv8)
    ensures Mul(a, Add(b, c)) == Add(Mul(a, b), Mul(a, c))
  {
    MulDistribLeft(a, b, c);
  }

  lemma MulCancel(u: bv8, v: bv8, d: bv8)
    requires d != 0 && Mul(u, d) == Mul(v, d)
    ensures u == v
  {
    MulDistrib(d, u, v);
    assert Mul(Add(u, v), d) == 0;
  }

  /** Dividing by d is multiplying by the inverse of d. */
  lemma QuotientIsMulInverse(a: bv8, d: bv8)
    requires d != 0
    ensures Quotient(a, d) == Mul(a, Quotient(1, d))
  {
    MulAssoc(a, Quotient(1, d), d);
    MulOne(a);
    MulCancel(Quotient(a, d), Mul(a, Quotient(1, d)), d);
  }
}
